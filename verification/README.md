# Verified models of the speaker firmware's byte pipelines

A Dafny model of the parts of this repository that move bytes between two sides
that do not wait for each other, and proofs that they lose, repeat and reorder
nothing, or of the exact condition under which that is so. Check everything with
`dafny verify dfyconfig.toml`.

| file | models |
|---|---|
| `Sequences.dfy` | facts about sequences and remainders used by the other files |
| `TraceRing.dfy` | the ring buffer of application tracing, with early wraps |
| `TraceLog.dfy` | what the trace transport stands for: one log in several places |
| `TraceFraming.dfy` | headers of user blocks and the host's reading of them |
| `AppTrace.dfy` | the trace transport itself and the host's side of the protocol |
| `GuardProtocol.dfy` | one-time initialisation of C++ statics by any number of tasks |
| `GuardProgress.dfy` | when its waiters lose tokens, and how every schedule ends |
| `RmtTransmit.dfy` | the remote-control transmitter and the hardware that drains its memory |
| `OtaSelect.dfy` | which partition boots, and switching it with the power failing at any moment |
| `OtaWriter.dfy` | writing an update image in blocks of 16 bytes |
| `SdSpiRead.dfy` | reading token-framed blocks of an SD card with read-ahead |
| `SdmmcDma.dfy` | recycling four DMA descriptors for a transfer of any length |
| `I2cCommands.dfy` | lists of I2C commands, what they mean, and queueing long reads and writes |
| `I2cController.dfy` | the controller that executes its command registers |
| `I2cMaster.dfy` | the driver that prepares them burst by burst, in step with the controller |
| `I2cOutcome.dfy` | what comes of a list for which the two get out of step |
| `DataBuffer.dfy` | the ring of audio buffers between two threads, statement by statement |
| `DataBufferCases.dfy` | runs of it in which a byte is lost or read twice |
| `DataBufferThreads.dfy` | whole calls of its functions, in place, among steps of the other thread |
| `LedcFade.dfy` | fading a PWM duty with a chain of hardware segments |
| `PinkNoise.dfy` | the pink-noise generator |

Code that changes fields and arrays is modelled by classes that do the same, one
method for a function of the source or for a part of it. Hardware, a host, or a
second thread is modelled by further methods on the same fields; drivers such as
`Transmit`, `Run` or `Transact` let both sides take turns in any order. Protocols of
several threads (`GuardProtocol`, `DataBuffer`) are step systems whose step is one
statement, or a copy together with its offset, and a class executes the same steps in
place.

## Findings

- The comment at ESP32/components/cxx/cxx_guards.cpp:81-85 does not hold while some
  guard is pending: a waiter of that guard can use up the token of a waiter whose guard is
  ready. What it takes is tasks that wait for two guards at once. As long as all wait for
  one and the same guard, none loses its token (`OneGuardIsServed`); while one task still
  stands at its token and another waits for a pending guard, all tokens can be lost
  (`OtherGuardTakesTokens`, `TwoGuardsLoseToken`).
  No nesting is needed for that (`LostWithoutNesting`), but then it is a delay only: once
  no acquires begin, every schedule ends, with nobody waiting (`NoEndlessRun`,
  `UnnestedEndsIdle`). Nesting, an initialiser that uses another guarded static, is what a
  deadlock takes (`EndsExactly`, `StuckExactly`, `UnnestedNeverStuck`): after
  `TokensCanBeStolen` no waiter moves until another task calls acquire and ends an
  initialisation (`AnotherReleaseHelps`). Without pending guards every waiter has its token
  (`NoStrandedWaiter`).
- I2C: a read that fits the FIFO behind a start condition leaves the register index where
  it is, so what follows is prepared behind the old start condition, which is repeated
  (`StartIsRepeated`); a stop condition inside a burst cuts it short; a burst that ends with
  a start condition runs on. `ListExact` is the exact condition under which driver and
  controller agree at every interrupt, and `OutcomeExact` shows that it is also the exact
  condition for the right events at the end, for lists with at most 15 conditions in a row,
  whatever earlier ones left in the registers, and so for one transaction after the other
  (`NextTransaction`). With 16 in a row two such errors can cancel out (`TwoErrorsCancel`).
- The audio stream: both functions clear the offset of the buffer they move to. Where the
  other thread has set it, just those bytes are lost or read again (`ReaderCanLoseBytes`,
  `WriterCanRepeatBytes`), and that is the only way (`FifoExactly`). It cannot happen while
  the writer never moves on with a full ring, nor the reader with an empty one
  (`FifoAtADistance`).
- `LedcFade`: `ledc_set_fade_with_step` drops the error of `ledc_set_fade`, so a fade whose
  step or cycle number exceeds 1023 reports success and is not set up
  (`SetFadeWithTime`, `SlowFadeIsNotSetUp`).
- `OtaSelect`: a completed switch can choose another slot than the one asked for. The three
  cases in which it does, told by the records before the call, are in `Hits`, and
  `SwitchesExactly` is the if-and-only-if: the highest number leaves no 32-bit number for the
  slot, so that the search wraps around (`WrappedSearchMisses`); it leaves only the one that
  marks an erased sector; or it is 0 (`ZeroSequenceCanMiss`). When the number of slots is a
  multiple of 4, the search that wraps around may also never end (`SearchEndsExactly`,
  `SearchCanBeEndless`).
- `OtaWriter`: with encryption on, an image of fewer than 16 bytes is refused at the end,
  though a call that brings all of it is accepted (`Update`, `ShortImageIsRefused`). And the
  check of the magic byte at ESP32/components/app_update/esp_ota_ops.c:148 is repeated for
  every call until flash is written: an image is refused half way when its first block comes
  in pieces and a later one does not happen to begin with that byte (`WriteAll`,
  `EarlyPieceIsRefused`).

## Model

| member | source | states |
|---|---|---|
| `TraceLog.RunExtendsLog` | ESP32/components/app_trace/app_trace.c:437-533 | over any run of allocations, switches and acknowledgements, what was exposed, the input block and the pending data together are the old log plus the allocated user blocks, in allocation order |
| `TraceLog.SwitchKeepsLog` | ESP32/components/app_trace/app_trace.c:459-519 | a block switch moves user blocks along and leaves the log unchanged |
| `TraceLog.SwitchPumpsChunk` | ESP32/components/app_trace/app_trace.c:487-519 | a switch pumps exactly one chunk of whole user blocks, never more than a trace block, and that many bytes are pending |
| `TraceLog.SwitchShrinks` | ESP32/components/app_trace/app_trace.c:777-796 | a switch takes the exposed bytes off what is left to expose, so each one with a non-empty input block makes progress |
| `TraceLog.ChunkAccounting` | ESP32/components/app_trace/app_trace.c:399-433 | recorded chunk sizes and the open chunk add up to the pending bytes |
| `TraceLog.PendAppends` | ESP32/components/app_trace/app_trace.c:631-668 | allocating in the pending ring appends exactly one user block to the log |
| `TraceLog.PendSound` | ESP32/components/app_trace/app_trace.c:399-417 | after it, each chunk is still a run of whole user blocks that fits a trace block, and pending data still implies a non-empty input block |
| `TraceLog.TakeAppends` | ESP32/components/app_trace/app_trace.c:712-749 | allocating in the input block appends exactly one user block to the log |
| `TraceLog.PendingImpliesInput` | ESP32/components/app_trace/app_trace.c:777-796 | an empty input block means that nothing at all is pending |
| `TraceLog.AdvancedKeepsLog` | ESP32/components/app_trace/app_trace.c:535-546 | a successful timed switch keeps the log and takes the input block off the backlog, whatever the host did meanwhile |
| `TraceFraming.ParseFrames` | ESP32/components/app_trace/app_trace.c:98-105 | a host that follows the headers gets back exactly the messages, in order, from any run of completed user blocks |
| `AppTrace.UnpackPack` | ESP32/components/app_trace/app_trace.c:214-226 | both flags and the length survive in the control register, the block id modulo 128 |
| `AppTrace.CounterWrapIsHarmless` | ESP32/components/app_trace/app_trace.c:437-467 | wrap-around of the 32-bit block counter changes neither the parity nor the id that the switch uses |
| `AppTrace.Transport.ChunkSizeUpdate` | ESP32/components/app_trace/app_trace.c:399-417 | the open chunk grows, or its size is queued and a new one begins; it fails only with a full size queue |
| `AppTrace.Transport.ChunkSizeGet` | ESP32/components/app_trace/app_trace.c:419-433 | the oldest queued size, or the open chunk, which is thereby closed |
| `AppTrace.Transport.Pump` | ESP32/components/app_trace/app_trace.c:487-519 | the next input block begins with the oldest pending bytes; the branch for missing pending bytes is never taken |
| `AppTrace.Transport.SwapBlocks` | ESP32/components/app_trace/app_trace.c:469-527 | both blocks, the marker, the control register and the pending data after an allowed switch |
| `AppTrace.Transport.BlockSwitch` | ESP32/components/app_trace/app_trace.c:437-533 | refused exactly while a connected host has not cleared the length; otherwise the log is kept, and only the block exposed before can be overwritten, none while the host is connected |
| `AppTrace.Transport.BlockSwitchWait` | ESP32/components/app_trace/app_trace.c:535-546 | however the host acts between the attempts, success means one switch and failure none |
| `AppTrace.Transport.HostReadAndAck` | ESP32/components/app_trace/app_trace.c:90-96 | the host reads the exposed block as it stands in memory, then clears the length |
| `AppTrace.Transport.HostReadsPrefix` | ESP32/components/app_trace/app_trace.c:90-96 | while the host stays connected, all it has read since then is a prefix of what is in the log from that moment |
| `AppTrace.ReadsParse` | ESP32/components/app_trace/app_trace.c:98-105 | what a connected host has read parses as a contiguous run of the messages granted, from the moment it connected |
| `AppTrace.Transport.Session` | ESP32/components/app_trace/app_trace.c:670-796 | over any number of calls of the interface and acts of the host, the host reads exactly the bytes of such a run |
| `AppTrace.Transport.WaitForBuffer` | ESP32/components/app_trace/app_trace.c:631-668 | after a timed switch the user block goes to the end of the log, wherever it is stored; without one nothing is allocated |
| `AppTrace.Transport.GetBuffer` | ESP32/components/app_trace/app_trace.c:670-758 | on every path, success appends exactly one framed user block to the log and failure keeps the log; a message of up to the payload limit that fits the input block is always granted when nothing is pending |
| `AppTrace.Transport.Flush` | ESP32/components/app_trace/app_trace.c:777-796 | it ends, keeps the log, and its success with minimum size 0 leaves input block and pending ring empty |
| `TraceRing.ReservedAppends` | ESP32/components/app_trace/app_trace_util.c:129-169 | a reservation is one contiguous piece that becomes the newest part of the contents, whatever is stored in it, also after an early wrap |
| `TraceRing.LiveKept` | ESP32/components/app_trace/app_trace_util.c:129-169 | storing in places that hold no live data, as reservations are, leaves the contents alone |
| `TraceRing.TakenDrops` | ESP32/components/app_trace/app_trace_util.c:171-195 | what is consumed is one contiguous piece, the oldest part of the contents |
| `TraceRing.Ring.Produce` | ESP32/components/app_trace/app_trace_util.c:129-169 | succeeds exactly when a contiguous piece of that size is free; the piece overlaps no live data; a refused call changes nothing |
| `TraceRing.Ring.Consume` | ESP32/components/app_trace/app_trace_util.c:171-195 | succeeds exactly up to the readable size and yields the oldest bytes, so that what was consumed followed by the contents never changes |
| `TraceRing.Ring.ReadSize` | ESP32/components/app_trace/app_trace_util.c:197-208 | at most what is there, and zero only for an empty ring |
| `TraceRing.Ring.WriteSize` | ESP32/components/app_trace/app_trace_util.c:210-224 | producing any positive number up to it succeeds, and it is less than the largest possible reservation only when that would wrap early |
| `TraceRing.Ring.Write` | ESP32/components/app_trace/app_trace.c:631-668 | a reservation that is filled appends those bytes to the queue |
| `TraceRing.Ring.WriteAll` | ESP32/components/app_trace/app_trace.c:595-621 | appends the longest prefix that the ring takes piece by piece, stopping early only when nothing more can be written |
| `GuardProtocol.NoStrandedWaiter` | ESP32/components/cxx/cxx_guards.cpp:70-114 | in every reachable state without a pending guard or a running signaller, the semaphore holds a token for each blocked task, so each can go on |
| `GuardProtocol.SingleInitialiser` | ESP32/components/cxx/cxx_guards.cpp:116-189 | one task at most initialises a guard at a time, no guard is pending and ready at once, and none is initialised after it became ready |
| `GuardProtocol.ReadyForever` | ESP32/components/cxx/cxx_guards.cpp:156-189 | once a guard is ready it stays so, and no later acquire of it returns 1 |
| `GuardProtocol.AfterRelease` | ESP32/components/cxx/cxx_guards.cpp:171-189 | from the statement of a release that marks the guard on, in every continuation, the guard stays ready and not pending and nobody is told to initialise it |
| `GuardProtocol.ReturnValues` | ESP32/components/cxx/cxx_guards.cpp:155-168 | an acquire is about to return 0 only for a ready guard, and 1 only to the one task responsible for it |
| `GuardProtocol.EndAssertionsHold` | ESP32/components/cxx/cxx_guards.cpp:179-201 | the assertions of release and abort hold in every run whose callers end only what they began |
| `GuardProtocol.StuckExactly` | ESP32/components/cxx/cxx_guards.cpp:70-114 | in every reachable state with blocked tasks: nobody can do anything but call acquire anew exactly when no task is on the move, no token is left, some guard is pending, and every task that is to end a pending initialisation is itself blocked |
| `GuardProtocol.NoNestingNoDeadlock` | ESP32/components/cxx/cxx_guards.cpp:70-114 | so while no task waits inside an initialiser that it runs, some task can go on or end its initialisation |
| `GuardProtocol.UnnestedNeverStuck` | ESP32/components/cxx/cxx_guards.cpp:70-208 | in every run in which no task calls acquire while it runs an initialiser, blocked tasks are never stuck |
| `GuardProgress.OneGuardIsServed` | ESP32/components/cxx/cxx_guards.cpp:70-114 | in every run in which the waiting tasks wait for one and the same guard at each moment: once that guard is pending no more and nobody is signalling, each blocked task has its token, whatever other guards are pending |
| `GuardProgress.OtherGuardTakesTokens` | ESP32/components/cxx/cxx_guards.cpp:81-97 | from every reachable state in which a task is blocked for a guard that is pending no more, and another for one that is: a state is reached in which both are still blocked and no token is left |
| `GuardProgress.TwoGuardsLoseToken` | ESP32/components/cxx/cxx_guards.cpp:81-114 | from every reachable state in which tasks are blocked for two pending guards and the initialiser of one is about to end: a state is reached in which that guard is ready, its waiter still blocked, and no token left |
| `GuardProgress.LostWithoutNesting` | ESP32/components/cxx/cxx_guards.cpp:81-114 | four tasks, no acquire inside an initialiser: a waiter of a ready guard without a token, until the other initialisation ends |
| `GuardProgress.LostOneAfterTheOther` | ESP32/components/cxx/cxx_guards.cpp:81-97 | the same loss where the two guards are never pending together |
| `GuardProgress.NoEndlessRun` | ESP32/components/cxx/cxx_guards.cpp:70-208 | from no reachable state on can the tasks take steps for ever without new calls of acquire |
| `GuardProgress.EndsExactly` | ESP32/components/cxx/cxx_guards.cpp:70-208 | in every reachable state, nothing but new acquires is possible exactly when no task is inside a function and no initialisation is left to end, or there is a deadlock |
| `GuardProgress.UnnestedEndsIdle` | ESP32/components/cxx/cxx_guards.cpp:70-208 | in runs without acquires inside initialisers only the first of these remains, and then nobody waits and nothing is pending |
| `GuardProtocol.TokensCanBeStolen` | ESP32/components/cxx/cxx_guards.cpp:81-97 | against the comment in the source, a task can be left waiting for a guard that is ready: a reachable state in which no step of any waiter is possible, because a waiter of a guard that is still pending took both tokens |
| `GuardProtocol.AnotherReleaseHelps` | ESP32/components/cxx/cxx_guards.cpp:108-114 | from that state on, a third initialisation that ends hands out tokens for both waiters |
| `GuardProtocol.WaiterIsCounted` | ESP32/components/cxx/cxx_guards.cpp:70-99 | the counter of waiting tasks never underflows |
| `GuardProtocol.StepInv` | ESP32/components/cxx/cxx_guards.cpp:70-208 | each statement keeps mutual exclusion, the meaning of the guard bytes, and the bounds on tokens |
| `GuardProtocol.Runtime.Execute` | ESP32/components/cxx/cxx_guards.cpp:70-208 | each statement, in place, is the corresponding step |
| `GuardProtocol.Runtime.Acquire` | ESP32/components/cxx/cxx_guards.cpp:116-169 | a whole call, with any steps of other tasks between its statements: it returns 1 to the one task that is to initialise, and 0 for a ready guard |
| `GuardProtocol.Runtime.End` | ESP32/components/cxx/cxx_guards.cpp:171-208 | a whole call of release or abort, with any steps of other tasks: the initialisation is over, and after a release the guard is ready |
| `RmtTransmit.AllPulses` | ESP32/components/driver/rmt.c:714-749 | with no zero duration inside, the pulses of an item array are all its pulses, two for each item in order |
| `RmtTransmit.PulseStep` | ESP32/components/driver/rmt.c:714-749 | sending the next item leaves the pulses of the items after it to be sent |
| `RmtTransmit.StaleRefill` | ESP32/components/driver/rmt.c:586-615 | refilling the half behind the filled slots leaves no slot ahead of the play position with a wrong item |
| `RmtTransmit.StalePlay` | ESP32/components/driver/rmt.c:586-615 | playing an item keeps the remaining filled slots right |
| `RmtTransmit.Channel.FillMemory` | ESP32/components/driver/rmt.c:473-482 | the given slots hold the items, all others are unchanged |
| `RmtTransmit.Channel.WriteItems` | ESP32/components/driver/rmt.c:714-743 | a positive number of items is accepted and playing begins with a correctly filled memory |
| `RmtTransmit.Channel.CopyNext` | ESP32/components/driver/rmt.c:592-608 | the free half gets the next items of the array, followed by an end mark once they run out |
| `RmtTransmit.Channel.ServeThreshold` | ESP32/components/driver/rmt.c:586-615 | the bookkeeping and the filled slots are right again after a threshold event |
| `RmtTransmit.Channel.ServeEnd` | ESP32/components/driver/rmt.c:539-550 | the end of a transmission clears its record |
| `RmtTransmit.Channel.Transmit` | ESP32/components/driver/rmt.c:714-749 | for arrays of any length and any timing that serves each threshold event before its half is needed, exactly the pulses of the items are sent |
| `OtaSelect.InterruptedKeepsBoot` | ESP32/components/app_update/esp_ota_ops.c:267-283 | as long as the rewritten sector holds no valid record, the choice is the one from before |
| `OtaSelect.CompletedSwitches` | ESP32/components/app_update/esp_ota_ops.c:337-363 | what boots after a completed switch, for any two records: the requested slot, or for number 0 the slot that 2^32 - 1 leaves as remainder, or for the number that marks an erased sector the old choice, or for a number from a search that wrapped around another slot |
| `OtaSelect.NumberedZero` | ESP32/components/app_update/esp_ota_ops.c:337-356 | a new record is numbered 0 exactly when the highest valid number is 0 and the last slot is asked for |
| `OtaSelect.SwitchesExactly` | ESP32/components/app_update/esp_ota_ops.c:337-363 | for any two records, a completed switch chooses the requested slot exactly when no record is valid, or: the highest valid number leaves a 32-bit number that names the slot, if that is only the one that marks an erased sector the slot was chosen before, and if that number is 0 and the last slot asked for, 2^32 is a multiple of the number of slots |
| `OtaSelect.NumberFits` | ESP32/components/app_update/esp_ota_ops.c:337-356 | the new number is one of those that name the slot exactly when the highest valid number is at most the last 32-bit number that names it |
| `OtaSelect.NumberedLast` | ESP32/components/app_update/esp_ota_ops.c:337-356 | a new record gets the number that marks an erased sector, as one that names the slot, exactly when that number names the slot and the highest valid number is within one round of it |
| `OtaSelect.ZeroSequenceCanMiss` | ESP32/components/app_update/esp_ota_ops.c:337-356 | with three slots and a valid record numbered 0, the switch to the last slot boots the first one |
| `OtaSelect.WrappedSearchMisses` | ESP32/components/app_update/esp_ota_ops.c:337-356 | with three slots and a valid record numbered 2^32 - 2, the search for slot 0 wraps around to the number that marks an erased sector, and slot 1 still boots |
| `OtaSelect.SearchEndsExactly` | ESP32/components/app_update/esp_ota_ops.c:339-341 | for up to 16 slots, the search ends exactly when the highest valid number is at most the largest 32-bit number that leaves the same remainder as slot + 1 modulo the power of 2 in the number of slots |
| `OtaSelect.SearchCanBeEndless` | ESP32/components/app_update/esp_ota_ops.c:339-341 | with four slots and a valid record numbered 2^32 - 2, the search for slot 0 never ends |
| `OtaSelect.BootsLastCompleted` | ESP32/components/app_update/esp_ota_ops.c:267-363 | after any history of completed and interrupted switches, from any two records, the device boots what the last completed one has chosen |
| `OtaSelect.OtaData.GetBootPartition` | ESP32/components/app_update/esp_ota_ops.c:416-471 | the factory image when no record is valid, and otherwise the slot that the highest valid number names |
| `OtaSelect.OtaData.RewriteOtaData` | ESP32/components/app_update/esp_ota_ops.c:298-369 | an invalid slot changes nothing, an interrupted call keeps the choice, a completed one chooses as its number tells, and the requested slot exactly as `SwitchesExactly` says; it never returns exactly when the highest valid number is beyond the last one that the search can come to |
| `OtaSelect.SlotOfCandidate` | ESP32/components/app_update/esp_ota_ops.c:337-353 | a number congruent to slot + 1, and not 0, names that slot |
| `OtaSelect.OtaData.RewriteSeq` | ESP32/components/app_update/esp_ota_ops.c:267-283 | completes with the new record, or leaves the old or no valid record in that one sector |
| `OtaSelect.OtaData.NextSeq` | ESP32/components/app_update/esp_ota_ops.c:337-353 | in 32-bit arithmetic: the first number tried that is not below the highest in use; without end exactly when that is beyond the last number that the search can come to |
| `OtaWriter.Entry.Coalesce` | ESP32/components/app_update/esp_ota_ops.c:153-178 | the partial block is completed and written first; no byte is lost or moved |
| `OtaWriter.Entry.KeepTail` | ESP32/components/app_update/esp_ota_ops.c:180-185 | what does not fill a block is kept for later, the rest has whole blocks |
| `OtaWriter.Entry.Write` | ESP32/components/app_update/esp_ota_ops.c:131-197 | flash and partial block together grow by exactly the accepted bytes, written flash is never touched again, and encrypted flash is written in whole blocks |
| `OtaWriter.Entry.End` | ESP32/components/app_update/esp_ota_ops.c:199-241 | fails without written flash; success means that flash begins with all accepted bytes |
| `OtaWriter.Entry.WriteAll` | ESP32/components/app_update/esp_ota_ops.c:131-197 | short of a failing flash, an image cut into calls is accepted exactly when each piece that comes before flash is written (16 bytes with encryption, one without) begins with the magic byte |
| `OtaWriter.Entry.Update` | ESP32/components/app_update/esp_ota_ops.c:131-255 | however an image is cut into calls, success means that the partition starts with it; with working flash it succeeds exactly when no call is refused, a block (or byte) comes at least, the blocks fit and the image is valid; it is refused at the end exactly when no call is and less comes |
| `OtaWriter.EarlyPieceIsRefused` | ESP32/components/app_update/esp_ota_ops.c:148-151 | an encrypted image cut 8 + 32 is refused at the second call |
| `OtaWriter.ShortImageIsRefused` | ESP32/components/app_update/esp_ota_ops.c:180-221 | an encrypted image of 15 bytes is accepted by the writer and refused at the end |
| `SdSpiRead.EncodedIsCarried` | ESP32/components/driver/sdspi_host.c:535-573 | what a card sends for a list of blocks has the shape that the driver relies on |
| `SdSpiRead.TokenInWindow` | ESP32/components/driver/sdspi_host.c:600-607 | searching bytes read ahead finds the start token of the block, or shows that it comes later |
| `SdSpiRead.Host.PollDataToken` | ESP32/components/driver/sdspi_host.c:494-533 | finds a token after any gap within the poll limit, and saves the bytes of the block behind it |
| `SdSpiRead.Host.FindData` | ESP32/components/driver/sdspi_host.c:595-617 | the bytes of the block that came along are where the driver says |
| `SdSpiRead.Host.ReceiveData` | ESP32/components/driver/sdspi_host.c:619-655 | data, CRC and the bytes to scan next are each taken from the right place of the line |
| `SdSpiRead.Host.ReadBlock` | ESP32/components/driver/sdspi_host.c:595-672 | one block lands in the destination behind the earlier ones, and is accepted exactly when its CRC is right or not looked at |
| `SdSpiRead.Host.ReadBlocks` | ESP32/components/driver/sdspi_host.c:574-672 | framing round trip: the read succeeds exactly when all checked CRCs are right, and then the destination equals the payload, wherever the tokens fall |
| `SdmmcDma.Cut.PiecesStep` | ESP32/components/driver/sdmmc_transaction.c:127-127 | describing one piece takes one off the number of descriptors that are still needed |
| `SdmmcDma.FillDescribes` | ESP32/components/driver/sdmmc_transaction.c:152-183 | the next descriptor to fill is not owned by the hardware, and filling it extends what is described |
| `SdmmcDma.FinishDescribes` | ESP32/components/driver/sdmmc_transaction.c:152-183 | the hardware is at the descriptor of the first byte it has not moved, and giving that back keeps the rest described |
| `SdmmcDma.Transfer.DescribeNext` | ESP32/components/driver/sdmmc_transaction.c:158-175 | the assertion that the descriptor is not owned holds, and what is described grows by the next piece |
| `SdmmcDma.Transfer.Fill` | ESP32/components/driver/sdmmc_transaction.c:152-183 | describes as many pieces as there are and are asked for |
| `SdmmcDma.Transfer.constructor` | ESP32/components/driver/sdmmc_transaction.c:108-131 | the initial descriptors; transfers have at least four bytes |
| `SdmmcDma.Transfer.Move` | ESP32/components/driver/sdmmc_transaction.c:152-175 | following the links, the hardware moves the pieces in order, each once |
| `SdmmcDma.Transfer.HandleDone` | ESP32/components/driver/sdmmc_transaction.c:370-379 | after an event the ring is refilled, and the transfer counts as done exactly when all bytes are moved and no event is left |
| `SdmmcDma.Transfer.Progress` | ESP32/components/driver/sdmmc_transaction.c:371-379 | the count of descriptors is zero exactly when nothing is left, and until then driver or hardware can go on |
| `SdmmcDma.Transfer.Run` | ESP32/components/driver/sdmmc_transaction.c:101-150 | for any length and timing the transfer ends with the whole buffer filled, in order |
| `I2cCommands.PutLands` | ESP32/components/driver/i2c.c:843-846 | the bytes of a read land contiguously and in order, and nothing else changes |
| `I2cCommands.WriteSplit` | ESP32/components/driver/i2c.c:741-766 | cutting a write in two means the same |
| `I2cCommands.ReadSplit` | ESP32/components/driver/i2c.c:782-807 | cutting a read in two means the same |
| `I2cCommands.CmdLink.QueueWrite` | ESP32/components/driver/i2c.c:741-766 | a write of any length is queued as commands of at most 255 bytes that mean the same |
| `I2cCommands.CmdLink.QueueRead` | ESP32/components/driver/i2c.c:782-807 | a read of any length is queued as commands of at most 255 bytes that mean the same |
| `I2cController.BurstExact` | ESP32/components/driver/i2c.c:861-925 | registers prepared from number k on are executed as they are meant exactly when k is 0, no STOP stands before the last of them, and a STOP or END ends them |
| `I2cMaster.ListExact` | ESP32/components/driver/i2c.c:841-926 | driver and controller are in step at every interrupt exactly when a walk along the list finds every burst in order: it begins at register 0, a stop condition only ends it, and a start condition at its end has an END behind it from an earlier burst |
| `I2cMaster.ListDone` | ESP32/components/driver/i2c.c:823-926 | then the list is executed to its end: all conditions and bytes on the bus in order, all read bytes stored in order |
| `I2cOutcome.OutcomeExact` | ESP32/components/driver/i2c.c:823-926 | for a list with at most 15 conditions in a row, and registers as any earlier lists leave them: the execution ends with just the events of the list exactly when every burst is in order |
| `I2cOutcome.MissingStays` | ESP32/components/driver/i2c.c:841-926 | once a byte has been dropped, the execution never comes to the events of the list, wherever it runs on |
| `I2cOutcome.StaleIsFatal` | ESP32/components/driver/i2c.c:847-852 | a burst prepared behind old start conditions puts more of them on the bus than the list has there, unless 15 or more are due in a row |
| `I2cOutcome.NextTransaction` | ESP32/components/driver/i2c.c:928-973 | after any list, executed as it was meant or not, the same exact condition holds for the next list, with the registers as they were left |
| `I2cMaster.UsualIsExecutable` | ESP32/components/driver/i2c.c:861-919 | lists of up to 14 start conditions before each write or read, with a stop condition only at the very end, and a read that fits the FIFO behind a start condition only as the last command, are executable whatever the registers held |
| `I2cMaster.StartIsRepeated` | ESP32/components/driver/i2c.c:847-852 | start, a read of one byte, stop: the controller executes the start condition a second time |
| `I2cMaster.TwoErrorsCancel` | ESP32/components/driver/i2c.c:908-919 | a stop and 15 start conditions: out of step after the first burst, yet the events at the end are those of the list, when register 15 holds an END |
| `I2cMaster.PrepareHands` | ESP32/components/driver/i2c.c:861-919 | what the prepared registers are meant to do, and what is left of the list, are together the list |
| `I2cMaster.PrepareShape` | ESP32/components/driver/i2c.c:861-919 | a burst never exceeds the registers or the FIFO, and leaves fewer bytes, or as many bytes and fewer commands |
| `I2cMaster.Master.Drain` | ESP32/components/driver/i2c.c:841-852 | fetching what was asked for, in place, is the corresponding step |
| `I2cMaster.Master.PrepareBurst` | ESP32/components/driver/i2c.c:861-919 | preparing a burst, in place, is the corresponding step |
| `I2cMaster.Master.BeginStatic` | ESP32/components/driver/i2c.c:823-926 | one call of the interrupt service is to store what came in and prepare the next burst, or to find that all is done |
| `I2cMaster.Master.StartTransfer` | ESP32/components/driver/i2c.c:920-925 | the controller executes its registers from the first one on, up to the first END or STOP |
| `I2cMaster.Master.CmdBegin` | ESP32/components/driver/i2c.c:928-973 | any list: in step at every interrupt exactly when the list is executable, and then all events happen in order and all bytes are stored |
| `I2cMaster.Master.Transact` | ESP32/components/driver/i2c.c:715-973 | requests of any lengths, queued and executed, come to exactly these requests when the queued list is executable |
| `DataBuffer.StreamAccount` | ESP32/main/data_buffer.c:28-86 | at the granularity of `State.Step`, in every interleaving: the bytes read are those written, except that marked pieces are left out and marked pieces come twice; the prepared buffers are the cyclic interval from the reader to the writer, and the counter is off by one at most |
| `DataBuffer.FifoExactly` | ESP32/main/data_buffer.c:28-86 | exactly as many bytes are marked as the offsets tell that the two threads clear; when these are all 0 the bytes read are a prefix of the bytes written, and the rest is pending |
| `DataBuffer.FifoAtADistance` | ESP32/main/data_buffer.c:28-86 | so while the writer never moves on with all buffers prepared, and the reader never with none, the bytes written are those read and those pending |
| `DataBuffer.StepInv` | ESP32/main/data_buffer.c:28-86 | each step of either thread keeps the order of the buffers and the account of every byte |
| `DataBuffer.State.ClearForWriterRepeats` | ESP32/main/data_buffer.c:51-52 | the writer clearing an offset makes exactly those bytes be read again; that happens only when the ring is full and the reader is in that buffer |
| `DataBuffer.State.ClearForReaderLoses` | ESP32/main/data_buffer.c:80-81 | the reader clearing an offset loses exactly the bytes pending; that happens only when no buffer is prepared and the writer is in that buffer |
| `DataBufferCases.ReaderCanLoseBytes` | ESP32/main/data_buffer.c:80-81 | a reachable state in which a written byte is lost |
| `DataBufferCases.WriterCanRepeatBytes` | ESP32/main/data_buffer.c:51-52 | a reachable state in which a byte is read twice |
| `DataBufferThreads.Buffers.BufferWriteData` | ESP32/main/data_buffer.c:28-55 | a whole call, with any steps of the reader between its statements, writes exactly its bytes |
| `DataBufferThreads.Buffers.BufferReadData` | ESP32/main/data_buffer.c:57-86 | a whole call, with any steps of the writer between its statements, yields the bytes that are read next, as many as asked for |
| `DataBufferThreads.Buffers.GetBufferPercent` | ESP32/main/data_buffer.c:88-91 | between 0 and 100, and exact, while neither thread is between two buffers |
| `LedcFade.BudgetFits` | ESP32/components/driver/ledc.c:518-527 | step and periods per step chosen for a fade need no more periods than there are |
| `LedcFade.BudgetSteps` | ESP32/components/driver/ledc.c:439-450 | a segment costs what it takes off the periods that are still needed |
| `LedcFade.Channel.FadeIsr` | ESP32/components/driver/ledc.c:421-459 | starts another segment exactly when the target is not reached and the step is not 0 |
| `LedcFade.Channel.FadeStart` | ESP32/components/driver/ledc.c:403-462 | the chain of segments reaches the target exactly, never passes it or turns back, and stays within its budget of periods |
| `LedcFade.Channel.SetFadeWithStep` | ESP32/components/driver/ledc.c:531-586 | the first segment of the fade; a parameter that does not fit is not reported and leaves the old configuration |
| `LedcFade.Channel.SetFadeWithTime` | ESP32/components/driver/ledc.c:500-529 | the fade is set up exactly when step and periods per step fit their register fields |
| `LedcFade.Channel.FadeInTime` | ESP32/components/driver/ledc.c:500-586 | a fade set up within these limits and started ends at the target, on a straight way, within its time |
| `LedcFade.SlowFadeIsNotSetUp` | ESP32/components/driver/ledc.c:500-586 | a fade that needs 1500 periods for one step is reported as set up and leaves the old configuration |
| `PinkNoise.ZerosMeaning` | WIN32/examples/paex_pink.c:124-131 | the counter is an odd multiple of that power of 2 |
| `PinkNoise.ZerosInRange` | WIN32/examples/paex_pink.c:124-131 | the number of trailing zeros is a valid row |
| `PinkNoise.HitsInPeriod` | WIN32/examples/paex_pink.c:119-140 | of the counter values of a period, exactly 2^(rows - 1 - k) name row k |
| `PinkNoise.SumBounded` | WIN32/examples/paex_pink.c:142-145 | the sum of the rows is bounded by their number |
| `PinkNoise.Pink.constructor` | WIN32/examples/paex_pink.c:92-104 | all rows 0, for 0 to 30 rows |
| `PinkNoise.Pink.NextRandom` | WIN32/examples/paex_pink.c:80-88 | a signed 24-bit number |
| `PinkNoise.Pink.CountZeros` | WIN32/examples/paex_pink.c:124-131 | shifting counts the trailing zeros |
| `PinkNoise.Pink.Replace` | WIN32/examples/paex_pink.c:132-139 | the running sum stays the sum of all rows |
| `PinkNoise.Pink.Generate` | WIN32/examples/paex_pink.c:113-145 | the sample lies in [-pmax, pmax), the running sum is the sum of all rows, and exactly the row named by the counter changes |
| `PinkNoise.Pink.Period` | WIN32/examples/paex_pink.c:113-146 | in each period, from any counter value on, row k changes exactly 2^(rows - 1 - k) times |

## Left out

- Ring: index sums are assumed to stay below 2^32; the sources add 32-bit unsigned numbers.
- AppTrace.Transport.SwapBlocks: a switch clears the flag for data from the host, but copying that data to the down ring is left out, as is the rest of the down channel; the host sends nothing down.
- AppTrace.Transport.Valid: the queue of chunk sizes has one slot an entry, where the source stores two bytes for each; a full queue is the outcome `SlotAssert` of an allocation, after which nothing is claimed.
- AppTrace.Transport.GetBuffer: the user block counts as filled when it is allocated; a task that is preempted between allocation and filling, and the header that marks that, are not modelled.
- AppTrace.Transport.BlockSwitchWait: time is a finite list of host actions between attempts; the lock is held throughout.
- TraceLog.Chunk: the configuration without SystemView and with more pending data than a trace block holds, the only one that compiles the chunk sizes in; smaller configurations, which pump the whole ring, are left out.
- Panic handling, the status register and the second core's register are not part of this model.
- GuardProtocol.Step: the path before the scheduler starts, the creation of mutex and semaphore, and the semaphore's maximum count are left out.
- GuardProtocol.EndAssertionsHold: assumes that a task releases or aborts only a guard that it acquired, as compiled code does.
- GuardProgress.NoEndlessRun: that each task ends the initialisers that it runs is the caller's part; a schedule may also stop early.
- RmtTransmit.Channel.Play: the two halves have the same positive length, and an unserved threshold event is not overtaken; receiving, errors and the copying of configuration registers are left out.
- OtaSelect.OtaData.RewriteOtaData: failing to find or map the data partition, and switching back to the factory image, are left out.
- OtaWriter.Entry.Write: one handle; nothing is claimed about accepted bytes after a failed flash write, and flash cells are set rather than cleared bit by bit.
- OtaWriter.Entry.End: image verification and signatures are one parameter.
- SdSpiRead.Host.ReadBlocks: gaps between blocks have at least one byte, as section 7.3.3 of the SD Physical Layer Simplified Specification asks for; a block has at least 7 bytes, since the source's length underflows below that; failing SPI transfers, the command before the data and the stop command after it are left out.
- SdSpiRead.Host.PollDataToken: its result is ignored by the caller, as in the source; nothing is claimed for gaps beyond the poll limit.
- SdmmcDma.Transfer.Run: one direction; one event for each finished descriptor; errors, alignment checks and command handling are left out.
- I2cController.Execute: that the controller begins at register 0 is how the driver uses it (it resets its index after each burst but a finished read); no acknowledge errors; a write that finds too few bytes, or running past the last register, ends without an interrupt; the FIFO has no upper bound once driver and controller are out of step.
- I2cOutcome.OutcomeExact: lists with 16 or more conditions in a row are left to `ListExact`; there the events at the end can be right by accident.
- I2cMaster.Master.CmdBegin: takes the commands as a value; that the source uses up the caller's list is not modelled.
- I2cMaster.Master.Fetch: reading an empty FIFO yields a fixed byte; memory is a map, so addresses outside the caller's buffers are not distinguished.
- DataBuffer.StreamAccount: the updates of the counter at ESP32/main/data_buffer.c:53 and :83 count as one step each; were two of them to overlap, one would be lost and the counter would drift, and with it `GetBufferPercent`; the bytes do not depend on it.
- DataBuffer.State.Step: a copy and the update of its offset are one step, as is a full copy and clearing that offset; what becomes of the bytes when the other thread clears the offset between the two (ESP32/main/data_buffer.c:39-40, :68-69) is not described. Number and length of buffers are parameters; the return value of reading is left out.
- LedcFade.Channel.SetFadeWithStep: targets are not negative and the step is positive, since the source divides by it; a step longer than the whole way, for which the first segment has no steps, is not followed further.
- LedcFade.Channel.FadeIsr: one channel; the pass over all channels and the fraction bits of the duty are left out.
- PinkNoise.Pink.Generate: `long` has 32 bits; the final scaling to floating point is left out.
- Wi-Fi, sockets, task creation, pin and clock setup, ADC, PWM and pulse-counter wrappers, and the audio examples: register pokes and calls into code that is not shown.
