# Verification of the firmware's interrupt and task protocols

The firmware's own code is a set of small protocols between interrupt handlers and tasks, running on a UART, a 32-bit
microsecond counter with one compare register, an I2C peripheral and FreeRTOS queues and notifications. This project
models them in Dafny and proves what they keep over every run.

Each protocol appears twice. Its code is a class or methods in the code's own form, with loops, fields and arrays
changed in place, proved against functions on values. Those functions are the steps of a state machine in which
interrupts may fall between any two steps of a task, and the theorems about runs are proved of the machine.

| files | what they model |
|---|---|
| `RingBuf`, `RingProtocol` | the single-producer single-consumer byte ring; the same ring with both sides interrupted at every access |
| `Uart`, `Console`, `ConsolePosts`, `LogTask` | the UART driver; the console pipeline from log lines to the wire; what it owes its users; the log task's own code |
| `Format`, `FormatLaws` | the formatter; what its conversions print, character by character |
| `SoftTimer`, `SoftTimerRuns`, `SoftTimerMatch`, `SoftTimerPass`, `SoftTimerPeriod`, `SoftTimerLimits`, `SoftTimerTable` | sixteen timers on one compare register; what holds over all runs; when the compare matches; what a pass does; one counter period; where it ends, by counterexample; the code |
| `TimerClients`, `Board`, `BoardTimes` | the timers' clients; the four drivers on one timer table; when each driver's timer is due |
| `SlotQueue` | the fixed-slot queue and its interrupted consumer |
| `Nec`, `NecLaws`, `IrTx`, `IrSignal`, `IrRx`, `IrLink` | the NEC code and its decoder; the same in microseconds; playback; the signal on the air; capture; a frame from one end to the other |
| `I2c`, `Imu` | the asynchronous bus; the MPU6050 driver and the sensor task's bring-up and sampling |
| `Cli`, `CommandLine`, `CommandLaws`, `CliWake` | lines and words; the command table and the task's code; what a typed line leads to; the task's wake-ups |
| `TaskManager`, `Common` | the task registry and its messages; shared vocabulary |

`dafny verify dfyconfig.toml` checks the whole project.

## Assumptions

- Interrupts run at one priority, to completion; a task may be interrupted between any two of its steps.
- One task produces into each transmit ring and one consumes each receive ring (the port registry grants each direction once).
- A soft-timer operation is one step with respect to the timer interrupt, and so is registering a timer together with storing its id.
- Starting an I2C transfer and arming its timeout is one step. The peripheral takes a transfer only when idle and ends each with one terminal interrupt.
- The UART's interrupt-driven transmit accepts a chunk when it is idle (the console model proves that it always is); UART error callbacks do not occur.
- The clock of the timer models counts the counter's own ticks, and the counter is taken to run freely. The HAL call that disables the compare also clears the counter's enable bit when no channel is left enabled (third_party/stm32cube/hal/stm32f2xx/src/stm32f2xx_hal_tim.c:1024-1025), so the hardware counter stands still inside a pass until the compare is re-armed, and while nothing is armed. Real waits are then longer than counted ones, never shorter; theorems about being on time and about measured gaps read counted time as real time.
- Increments of the slot queue's count run in an interrupt and are atomic; the task's decrement is not assumed to be, and is a load and a store in `SlotQueue` and in `IrRx`, whose capture theorems cover the runs without a release between the two.
- The sensor is initialised once, by its task, before it handles a message.
- The notification count does not wrap at 32 bits, and log lines are posted by tasks only.
- Timer theorems about liveness and punctuality state their bounds on delay, lateness and callback time; `SoftTimerLimits` shows runs outside them. Liveness bounds how overdue any active timer is when an interrupt is served, which is more than a bound on the interrupt's own lateness.

## Where a property fails, and exactly when

- The slot queue's header gives head and count to the producer, tail and count to the consumer. With both sides updating `count`, a release between the load and the store of the consumer's decrement is not counted (`SlotQueue.DecrementIsExactIff`, `SlotQueue.CollidingReleaseIsStranded`).
- A device probe that overlaps an orphaned I2C transfer can drop another request without its callback (`I2c.RefusedTimerLosesRequest`). It takes a refused timer, which the board's four drivers never see (`Board.DriversOwnTheirTimers`, `Board.RequestsCompleteOnce`).
- A lone infrared edge corrupts a train that starts within 65535 us of it on the counter (`IrRx.StrayIsHarmlessIff`).
- A timer whose deadline is all ones, the code's sentinel for none, is not watched (`SoftTimer.EnabledIff`, `SoftTimerLimits.LoneTimerIsWatchedIff`).
- A timer that a callback registers fires in the same pass, early, if and only if its delay plus the callback time elapsed exceeds half the period (`SoftTimerRuns.RegistrationLooksDueIff`, `SoftTimerLimits.LateRegistrationRunsIff`, `SoftTimerLimits.SlowCallbackFiresEarly`).
- Rescheduling matches at the watched timer's time, or on the next tick when that has come, if and only if the timer is not overdue by half a period on the counter (but for the one tick before its deadline comes round again); beyond it the match is a counter period off (`SoftTimerMatch.RescheduleMatchesIff`).
- A compare interrupt re-arms if and only if it finds an entry due (`SoftTimer.InterruptRearmsIff`); a timer overdue by half a period is no longer found due, even by an interrupt that is itself hardly late (`SoftTimerLimits.StaleTimerLeavesMultiplexerDead`).
- Initialising the sensor again with a write on the bus changes the byte being sent unless it is the wake byte (`Imu.ReinitKeepsByteIff`).
- A line longer than 63 characters is not truncated: it is dropped and restarted at every sixty-fourth character (`Cli.LinesAreRunTails`).

## Model

| member | source | states |
|---|---|---|
| RingBuf.NextIsModulo | lib/ringbuf/ringbuf.c:3-6 | advancing an index by one with the code's modulo is wrapping at the capacity |
| RingBuf.WindowPush | lib/ringbuf/ringbuf.c:62-68 | writing the free slot at head changes no unread byte; publishing the new head appends exactly that byte |
| RingBuf.WindowPop | lib/ringbuf/ringbuf.c:82-88 | publishing the new tail drops exactly the oldest unread byte |
| RingBuf.RingBuffer.Len | lib/ringbuf/ringbuf.c:25-38 | the number of unread bytes |
| RingBuf.RingBuffer.Space | lib/ringbuf/ringbuf.c:40-52 | the capacity less one less the unread bytes |
| RingBuf.RingBuffer.Push | lib/ringbuf/ringbuf.c:54-72 | appends the longest prefix of the data that keeps one slot free and returns its length |
| RingBuf.RingBuffer.Pop | lib/ringbuf/ringbuf.c:74-92 | moves the oldest bytes, at most the length asked for, to the front of the output and touches nothing else of it |
| RingProtocol.ProducerRefinesQueue | lib/ringbuf/ringbuf.c:54-72 | with producer and consumer interrupting each other at every access, each producer access is invisible or one whole append; the full test passes exactly when there is room, and the room is still there when the head is published |
| RingProtocol.ConsumerRefinesQueue | lib/ringbuf/ringbuf.c:74-92 | each consumer access is invisible or one whole removal of the oldest byte; the empty test is exact |
| RingProtocol.InterleavingIsSafe | lib/ringbuf/ringbuf.c:3-92 | over every interleaving: popped ++ stored == pushed, at most capacity - 1 bytes stored, no unpublished slot is read, no unread slot is overwritten |
| RingProtocol.UndisturbedRounds | lib/ringbuf/ringbuf.c:54-92 | undisturbed rounds of the accesses are the run-to-completion operations |
| Uart.WriteConserves | drivers/platform/stm32f2/uart/uart.c:132-161 | a write accepts a prefix of its buffer, as long as fits; everything accepted before stays in order; the port never sits idle with bytes |
| Uart.KickMoves | drivers/platform/stm32f2/uart/uart.c:56-70 | a kick moves the front of the ring, up to the chunk size, into flight and reports TX_EMPTY exactly when there was nothing |
| Uart.CompleteConserves | drivers/platform/stm32f2/uart/uart.c:163-173 | a completed chunk is followed by the next bytes in order; the transmitter goes idle exactly when the ring is dry |
| Uart.SizesTaken | drivers/platform/stm32f2/uart/uart.c:132-161 | a write takes as many bytes as leave at most 255 queued; a kick takes at most 64 of those queued |
| Uart.Port.Launch | drivers/platform/stm32f2/uart/uart.c:56-70 | the staged bytes are handed to the HAL; nothing staged means idle and TX_EMPTY, a refusal means idle |
| Uart.Port.TxKick | drivers/platform/stm32f2/uart/uart.c:56-70 | the code of the kick does what `KickTx` says of the port, and emits TX_EMPTY exactly when the ring was dry |
| Uart.Port.Write | drivers/platform/stm32f2/uart/uart.c:132-161 | the code of the write does what `WriteTx` says of the port |
| Uart.Port.TxCpltCallback | drivers/platform/stm32f2/uart/uart.c:163-173 | the transmit-complete interrupt does what `CompleteTx` says of the port |
| Uart.Port.RxEventCallback | drivers/platform/stm32f2/uart/uart.c:175-195 | what fits of the received chunk is queued in order; RX_AVAILABLE is reported exactly when something fitted |
| Uart.Port.Read | drivers/platform/stm32f2/uart/uart.c:123-130 | hands out the oldest received bytes, at most as many as asked for |
| Console.StepKeepsInv | middleware/log/log.c:206-299 | every access of the log task, the senders and the transmit interrupt keeps the joint invariant of program counter, ring, staging chunk, pending buffer, inbox and notification count |
| Console.NothingLostOrReordered | middleware/log/log.c:206-237 | over every interleaving: posted lines == wire ++ chunk in flight ++ ring ++ rest of the current write or pending buffer ++ inbox; a line is taken up only with an empty pending buffer |
| Console.StagingIsStable | drivers/platform/stm32f2/uart/uart.c:56-70 | a chunk handed to the HAL is not overwritten until it has left, and the HAL is idle whenever it is handed one |
| Console.NoLostWakeUp | middleware/log/log.c:270-299 | whenever the log task waits with a line or a remainder to come back to, a notification is there, a sender owes one, or the transmitter is running and will report the ring dry |
| Console.QuietMeansDelivered | middleware/log/log.c:270-299 | when no step is left to take, every posted byte is on the wire |
| Console.StepWorks | middleware/log/log.c:270-299 | every step but a new post uses up some of a bounded amount of work |
| Console.EverythingIsDelivered | middleware/log/log.c:206-299 | without new posts the steps left are bounded in any order, and once none is left the wire carries exactly what was posted |
| ConsolePosts.PostIsQueuedIff | middleware/log/log.c:190-201 | a fitting message posted while fewer than eight are waiting is queued behind them and its sender owes a notification; otherwise nothing changes |
| ConsolePosts.EveryOfferedLineIsDelivered | middleware/log/log.c:190-299 | over every run, with the offered lines told from the steps and the number eight alone: the wire is a prefix of exactly those lines, and all of them once no step is left |
| ConsolePosts.LinesInARowAreDelivered | middleware/log/log.c:190-299 | up to eight lines posted in a row on a fresh console are all on the wire when the bounded work left is done |
| Console.OneWakeUpAnswersAll | middleware/taskmanager/taskmanager.c:238-241 | however many notifications have piled up, with nothing to do they cost the log task one turn |
| Console.UndisturbedWriteIsWriteTx | drivers/platform/stm32f2/uart/uart.c:132-161 | the interruptible accesses of one write, left undisturbed, add up to the contract of `Uart.Port.Write` |
| LogTask.KeptIsWholeIff | middleware/log/log.c:206-222 | a line loses nothing if and only if what the ring did not take fits the 130 bytes of the pending buffer; otherwise it loses its end |
| LogTask.Logger.LogWrite | middleware/log/log.c:206-222 | what the ring does not take of a line is kept, cut to the pending buffer |
| LogTask.Logger.LogWritePending | middleware/log/log.c:226-237 | the remainder is pushed again and what is still left moves to the front |
| LogTask.Logger.ServiceWake | middleware/log/log.c:270-299 | one wake-up carries remainder and inbox to the port without losing or reordering a byte; work is left over only behind a running transmitter |
| Format.NumberTextReadsBack | middleware/log/log.c:66-103 | every 32-bit number in base 10 or 16 prints in at most ten digits, which read back as the number |
| Format.IntegersPrintExactly | middleware/log/log.c:141-152 | `%d` prints every 32-bit integer exactly at every width, the least one included: sign, padding that reads as nothing, digits |
| FormatLaws.UnsignedPrints | middleware/log/log.c:66-164 | `%u`, `%x` and `%X` print a numeral without leading zeros that reads back as the word in base 10 or 16, in digits of the right case, with zeros or blanks in front up to exactly the width |
| FormatLaws.SignedPrints | middleware/log/log.c:141-152 | `%d` prints a minus sign for a negative word, then its magnitude so padded |
| FormatLaws.OthersPrint | middleware/log/log.c:137-179 | `%s`, a null string, `%c`, `%%` and a character that names no conversion |
| FormatLaws.FlagsAreRead | middleware/log/log.c:123-130 | whatever digits stand before a conversion character: zero padding exactly when they start with a zero, and the width is their value modulo 2^32 |
| FormatLaws.EveryWidthCanBeAsked | middleware/log/log.c:123-130 | every flag setting can be written |
| FormatLaws.ConversionsPrint | middleware/log/log.c:114-182 | a percent sign, any digits and a character print what they mean, take the argument they need, and the rest of the format follows |
| FormatLaws.LiteralsPrint | middleware/log/log.c:114-119 | text without a percent sign prints as it stands |
| FormatLaws.CutConversionPrintsNothing | middleware/log/log.c:132-134 | a format that ends inside a conversion prints nothing for it |
| Format.Digits | middleware/log/log.c:66-84 | the digit loop fills the ten-character scratch without overflow with the number's digits, least significant first |
| Format.PutNumber | middleware/log/log.c:66-103 | padding and digits are appended as far as the buffer goes, and nothing past it is touched |
| Format.VFormat | middleware/log/log.c:105-188 | for every format and matching arguments: returns the smaller of the room and the full length, leaves that prefix of the unbounded rendering with a NUL inside the bounds |
| Format.LogPrintf | middleware/log/log.c:301-334 | the posted line is the rendering cut to the limit plus CR LF; it fits its allocation and the pending buffer; an empty rendering posts nothing |
| SoftTimer.EarliestIsMin | middleware/h_soft_timer/h_soft_timer.c:26-40 | the plain numeric search with an all-ones sentinel finds the minimum of the active deadlines |
| SoftTimer.EnabledIff | middleware/h_soft_timer/h_soft_timer.c:42-58 | outside a pass the compare interrupt is enabled if and only if some active deadline is not the sentinel |
| SoftTimer.OpKeepsArmed | middleware/h_soft_timer/h_soft_timer.c:110-153 | registering and unregistering keep: the believed deadline is the minimum, and the compare interrupt is enabled exactly when there is one |
| SoftTimer.RegisterEntersIff | middleware/h_soft_timer/h_soft_timer.c:110-141 | a registration is refused exactly without a callback, without a delay, or with sixteen active slots; otherwise it takes the first inactive slot, due its delay from now, and touches no other |
| SoftTimer.UnregisterFrees | middleware/h_soft_timer/h_soft_timer.c:143-153 | cancelling a slot frees it and leaves every other alone; an id outside the table does nothing |
| SoftTimer.ExpireOutcome | middleware/h_soft_timer/h_soft_timer.c:60-87 | a pass re-arms when it fires or finds an entry due, whatever its callbacks register and unregister, and otherwise changes nothing |
| SoftTimer.InterruptRearmsIff | drivers/platform/stm32f2/h_timer/h_timer.c:84-96 | a compare interrupt leaves the multiplexer armed if and only if some entry is due when it is served |
| SoftTimerRuns.DueIsPast | middleware/h_soft_timer/h_soft_timer.c:21-24 | the modular due test means the true time has come, within half a period either way |
| SoftTimerRuns.LongDelaysLookDueIff | middleware/h_soft_timer/h_soft_timer.c:110-141 | a fresh registration looks due at once if and only if its delay exceeds half the period |
| SoftTimerRuns.RegistrationLooksDueIff | middleware/h_soft_timer/h_soft_timer.c:21-24 | a registration made inside a pass is taken for due in that pass if and only if delay plus callback time elapsed, on the counter, is zero or exceeds half the period |
| SoftTimerRuns.NeverDead | middleware/h_soft_timer/h_soft_timer.c:26-153 | along every run with delays up to half a period, in which no active timer is half a period overdue when an interrupt is served, the multiplexer stays armed and every compare interrupt finds a due entry, callbacks re-entering |
| SoftTimerRuns.EachRegistrationEndsOnce | middleware/h_soft_timer/h_soft_timer.c:60-153 | over every run each registration is waiting in exactly one slot or has ended exactly once, by a callback or by an unregistration |
| SoftTimerMatch.RescheduleMatchesIff | middleware/h_soft_timer/h_soft_timer.c:42-58 | after rescheduling the compare matches exactly at the watched timer's true time, or on the next tick when that has come, if and only if the timer is not overdue by half a period on the counter (but for the one tick before its deadline comes round again) |
| SoftTimerMatch.MatchIsOnTime | middleware/h_soft_timer/h_soft_timer.c:42-153 | along every run that leaves no timer half a period overdue, an enabled compare not yet matched will match exactly at the true time of an active timer with the smallest deadline, or on the next tick if that has come |
| SoftTimerPass.PassEndsEveryDue | middleware/h_soft_timer/h_soft_timer.c:60-87 | over every run, whatever the callbacks do, a registration that an interrupt finds due has ended, once, when the interrupt returns |
| SoftTimerPass.OneDueRunsItsCallback | middleware/h_soft_timer/h_soft_timer.c:60-87 | an interrupt that finds one entry due takes it out, runs what that entry's own callback does, and re-arms |
| SoftTimerRuns.PassFiresOnlyOldAndDue | middleware/h_soft_timer/h_soft_timer.c:60-87 | a pass whose callbacks' registrations are each in time when made (delay plus callback time elapsed by then at most half a period, for a slot still to be scanned) runs only callbacks that waited in the table before it, while it lasts and not before their true deadlines |
| SoftTimerRuns.TimersAreNeverEarly | middleware/h_soft_timer/h_soft_timer.c:21-153 | on the unbounded clock, across counter wraps, no callback runs before its true deadline while each registration is in time when it is made |
| SoftTimerLimits.SlowCallbackFiresEarly | middleware/h_soft_timer/h_soft_timer.c:60-87 | beyond that bound it does: a timer half a period ahead, registered by a callback that takes a microsecond, fires in the same pass |
| SoftTimerLimits.LateRegistrationRunsIff | middleware/h_soft_timer/h_soft_timer.c:60-87 | a pass that reaches a registration one of its callbacks made runs it, early, if and only if delay plus callback time elapsed exceeds half the period, and passes it over otherwise |
| SoftTimerLimits.StaleTimerLeavesMultiplexerDead | middleware/h_soft_timer/h_soft_timer.c:60-87 | a run in which an interrupt served ten microseconds late finds a timer that is half a period overdue not due, and the compare stays disabled with it waiting |
| SoftTimerLimits.LoneTimerIsWatchedIff | middleware/h_soft_timer/h_soft_timer.c:110-141 | a timer registered alone is watched if and only if its deadline is not all ones on the counter |
| SoftTimerPeriod.TimersAreOnTime | middleware/h_soft_timer/h_soft_timer.c:26-58 | inside one counter period with prompt interrupts no active timer is left overdue, the armed compare is the earliest true deadline, and callbacks run exactly on time |
| SoftTimerTable.HTimer.Arm | drivers/platform/stm32f2/h_timer/h_timer.c:66-72 | clears a stale match and arms the compare |
| SoftTimerTable.HTimer.StopCompare | drivers/platform/stm32f2/h_timer/h_timer.c:74-77 | disables the compare interrupt |
| SoftTimerTable.Timers.FindEarliest | middleware/h_soft_timer/h_soft_timer.c:26-40 | the loop computes the numeric minimum of the active deadlines |
| SoftTimerTable.Timers.DoReschedule | middleware/h_soft_timer/h_soft_timer.c:42-58 | arms the earliest deadline, or the next tick when it is already due, or nothing, as `Reschedule` does; `SoftTimerMatch` has when that matches |
| SoftTimerTable.Timers.RegisterTimer | middleware/h_soft_timer/h_soft_timer.c:110-141 | takes the first free slot and reschedules as the machine's registration does; refuses a zero delay, a missing callback or a full table |
| SoftTimerTable.Timers.UnregisterTimer | middleware/h_soft_timer/h_soft_timer.c:143-153 | frees the slot and reschedules as the machine's unregistration does |
| SoftTimerTable.Timers.ExpireHook | middleware/h_soft_timer/h_soft_timer.c:60-87 | the pass over the table, with callbacks calling back in, is the machine's pass |
| SoftTimerTable.Timers.OcDelayElapsed | drivers/platform/stm32f2/h_timer/h_timer.c:84-96 | the compare interrupt is the machine's interrupt |
| TimerClients.DisarmIsOwn | drivers/platform/stm32f2/i2c/i2c.c:54-60 | cancelling by a stored id touches the client's own slot and no other |
| TimerClients.FiresOwns | drivers/device/ir_rx/ir_rx_drv.c:37-45 | a client that forgets its id before anything else when it fires, as the receiver and the sensor do, keeps owning nothing but its own; `Board.CallbacksAlwaysForget` has the other two |
| TimerClients.ArmFindsSlot | middleware/h_soft_timer/h_soft_timer.c:110-141 | with at most sixteen clients there is a free slot for a client that has none |
| TimerClients.ArmOwnsIff | drivers/platform/stm32f2/i2c/i2c.c:99-112 | registering over a stored id keeps ownership if and only if nothing was stored |
| TimerClients.ClientsOwnTheirTimers | middleware/h_soft_timer/h_soft_timer.c:110-153 | over every run of up to sixteen clients that overwrite an id only with nothing stored: ids and active slots belong to each other, and arming never fails nor disturbs another client |
| Board.DriversOwnTheirTimers | middleware/h_soft_timer/h_soft_timer.c:110-153 | over every run of the four drivers on one table, each storing and forgetting ids as its code does: every id names its own driver's active slot, every active slot is stored, at most four are active, and a registration always finds a slot |
| Board.CallbacksAlwaysForget | drivers/platform/stm32f2/i2c/i2c.c:85-93 | the I2C timeout finds the bus locked and the segment timer finds a request being sent, so neither callback returns remembering its id |
| Board.RequestsCompleteOnce | drivers/platform/stm32f2/i2c/i2c.c:62-188 | over every run of the board, with no assumption on timers, each I2C request that got the lock is called exactly once, by the interrupt that ends its transfer or by the failing start |
| Board.WillingStartSucceeds | drivers/platform/stm32f2/i2c/i2c.c:174-188 | over every run of the board a start on an unlocked bus that the peripheral takes succeeds with its timeout armed |
| Board.RequestsPlayThrough | drivers/device/ir_tx/ir_tx_drv.c:94-140 | over every run of the board an accepted request has been sent whole, or its segment timer is in the table and plays on when it fires |
| Board.AcceptedRequestPlaysWhole | drivers/device/ir_tx/ir_tx_drv.c:245-265 | on any reachable board an idle transmitter accepts a request and as many firings as it has segments play it whole and complete it |
| Board.RxEdgeKeeps | drivers/device/ir_rx/ir_rx_drv.c:58-74 | an edge always gets its idle timer: the receiver on the board moves as its own machine does |
| Board.ImuFires | middleware/sensor/sensor_mpu6050.c:63-78 | the sample tick always gets its next timer |
| BoardTimes.IdleTimerIsInTheTable | drivers/device/ir_rx/ir_rx_drv.c:58-74 | over every run of the board a pending idle timer stands in the table with the true deadline the receiver's machine gives it |
| BoardTimes.EventSpares | middleware/h_soft_timer/h_soft_timer.c:110-153 | an event of one driver leaves the pending timers of the others alone |
| BoardTimes.SegmentsLastTheirDuration | drivers/device/ir_tx/ir_tx_drv.c:94-140 | over every run of the board, while a request is being sent its segment timer is due exactly the current segment's duration after that segment began |
| BoardTimes.TransfersTimeOutOnTime | drivers/platform/stm32f2/i2c/i2c.c:99-112 | over every run of the board a pending I2C timeout is due its milliseconds, as 32-bit microseconds and never zero, after its transfer started |
| BoardTimes.SamplesComeOnTime | middleware/sensor/sensor_mpu6050.c:100-114 | over every run of the board a pending sample timer is due 100 ms after it was armed |
| SlotQueue.AtSteps | lib/slot_queue/slot_queue.c:5-8 | walking on with the code's modulo stays head == tail + count around the depth |
| SlotQueue.LivePush | lib/slot_queue/slot_queue.c:77-98 | the slot past the live ones is not live: filling it changes no element, counting it appends it |
| SlotQueue.SlotQueue.Acquire | lib/slot_queue/slot_queue.c:77-88 | a slot is handed out if and only if the queue is not full |
| SlotQueue.SlotQueue.Fill | lib/slot_queue/slot_queue.c:109-114 | filling an acquired slot in place changes no queued element |
| SlotQueue.SlotQueue.Release | lib/slot_queue/slot_queue.c:90-98 | the filled slot becomes the newest element |
| SlotQueue.SlotQueue.TryPush | lib/slot_queue/slot_queue.c:100-116 | appends the element or reports the queue full |
| SlotQueue.SlotQueue.TryPop | lib/slot_queue/slot_queue.c:118-133 | takes the oldest element or reports the queue empty |
| SlotQueue.InterruptRefinesQueue | lib/slot_queue/slot_queue.c:77-98 | between any two steps of a pop an interrupt finds a slot exactly when not all are counted, never a live one; releasing appends, abandoning changes nothing |
| SlotQueue.ConsumerRefinesQueue | lib/slot_queue/slot_queue.c:118-133 | each step of a pop is invisible but the publication of the tail, which removes the oldest element, copied whole |
| SlotQueue.UndisturbedPop | lib/slot_queue/slot_queue.c:118-133 | the steps of one pop in a row take the oldest element, free its slot and count it off; on an empty queue they do nothing |
| SlotQueue.InterleavingIsSafe | lib/slot_queue/slot_queue.c:5-133 | over every interleaving without a release inside the decrement: head is tail plus count, popped elements are a prefix of released ones, none is lost |
| SlotQueue.DecrementIsExactIff | lib/slot_queue/slot_queue.c:130-130 | the decrement is a load and a store: with interrupts between them the count stays right if and only if none of them could release |
| SlotQueue.CollidingReleaseIsStranded | lib/slot_queue/slot_queue.c:118-133 | a release that falls there leaves an element in a queue that tests empty |
| Nec.Encode | middleware/ir/ir_tx_nec.c:23-51 | a frame is leader, address, its complement, command, its complement most significant bit first, and a closing mark; nothing without room for all of it |
| Nec.EncodeRepeat | middleware/ir/ir_tx_nec.c:53-68 | the repeat is its two waves, or nothing without the room asked for |
| Nec.FlatFrame | middleware/ir/ir_tx_nec.c:23-51 | the nominal pulse widths of a frame |
| IrTx.PlaybackIsOrderly | drivers/device/ir_tx/ir_tx_drv.c:79-140 | over every run the segments begun are a prefix of the flattened waves, in order, one at a time; no start is accepted mid-run; each accepted request completes once, dark and without a timer; it stops short only when a timer was refused |
| IrTx.PlaysThrough | drivers/device/ir_tx/ir_tx_drv.c:94-140 | with its timers granted an accepted request plays every segment and completes after the last |
| IrTx.FlatteningConservesTime | drivers/device/ir_tx/ir_tx_drv.c:142-169 | flattening keeps the total mark and space time, and all of it when it fits 80 segments |
| IrTx.Driver.FlattenWaves | drivers/device/ir_tx/ir_tx_drv.c:142-169 | the loop fills the buffer with the flattened waves cut to 80 segments |
| IrTx.Driver.PlayNextSegment | drivers/device/ir_tx/ir_tx_drv.c:94-125 | the code plays the next segment or finishes, as the channel machine does |
| IrTx.Driver.SegmentTimerCallback | drivers/device/ir_tx/ir_tx_drv.c:127-140 | the timer callback is the machine's |
| IrTx.Driver.StartWaves | drivers/device/ir_tx/ir_tx_drv.c:245-265 | a start is accepted exactly when idle with at least one segment, and is the machine's start |
| IrTx.FirstEightyAreFitted | drivers/device/ir_tx/ir_tx_drv.c:142-169 | what is played of a request is its first eighty segments |
| IrSignal.FlatKeepsSignal | drivers/device/ir_tx/ir_tx_drv.c:142-169 | the flattened segments have the carrier on exactly at the microseconds at which the waves do |
| IrSignal.SignalIsTheWaves | drivers/device/ir_tx/ir_tx_drv.c:94-169 | over every run of the board in which the segment timer fires when due, from a request's start to the end of its last segment the carrier is on exactly when its waves say so, to the microsecond |
| IrRx.TicksApart | drivers/device/ir_rx/ir_rx_drv.c:97-118 | the difference of two counter readings is the true gap modulo 2^32, across wraps |
| IrRx.CaptureFollowsTrains | drivers/device/ir_rx/ir_rx_drv.c:37-124 | over every legal run without a release inside the queue's decrement the queued bursts are those of the trains that ended with room in the queue, in order; a train longer than 129 edges leaves its last n mod 130 gaps |
| IrRx.CaptureIsExact | drivers/device/ir_rx/ir_rx_drv.c:37-124 | over every such run with trains of 2 to 129 edges each delivered burst is its train's full list of gaps, and a train is dropped only when the three-slot queue is full |
| IrRx.OnlyAFullQueueDrops | drivers/device/ir_rx/ir_rx_drv.c:37-124 | the same with trains and fullness told from the events: only a train that finds three bursts counted is dropped, and the count is of the bursts waiting, plus one inside the task's release of a slot |
| IrRx.UndisturbedTake | lib/slot_queue/slot_queue.c:118-133 | the steps of one take in a row hand the oldest burst to the task and count it off |
| IrRx.StrayLeavesStale | drivers/device/ir_rx/ir_rx_drv.c:37-48 | a lone edge followed by quiet leaves the driver waiting for its successor |
| IrRx.StrayIsHarmlessIff | drivers/device/ir_rx/ir_rx_drv.c:97-124 | after a lone edge the next train is captured as its own gaps if and only if the counter distance is zero or above 65535 |
| IrRx.Receiver.OnGpioEdge | drivers/device/ir_rx/ir_rx_drv.c:97-124 | the edge interrupt measures, stores or skips, and re-arms, as the machine does |
| IrRx.Receiver.PushPulseWidth | drivers/device/ir_rx/ir_rx_drv.c:76-95 | a width is stored, or a full buffer is flushed without storing it |
| IrRx.Receiver.ReadBufferedPulses | drivers/device/ir_rx/ir_rx_drv.c:186-210 | hands out at most as many buffered widths as asked for, drops the rest and starts a new frame, unless there is nothing to hand out |
| IrRx.Receiver.FlushBuffer | drivers/device/ir_rx/ir_rx_drv.c:212-221 | drops the widths and the idle timer and starts a new frame |
| IrRx.Receiver.PushBurst | middleware/ir/ir_rx.c:16-40 | the buffered widths become the newest burst in an acquired slot, or are flushed when there is none; an empty burst is not released |
| IrRx.Receiver.IdleTimerFired | drivers/device/ir_rx/ir_rx_drv.c:37-56 | the end of a train queues or flushes its burst, as the machine does |
| Nec.DecodeDataBits | middleware/ir/ir_rx_nec.c:22-47 | the loop accumulates the 32 bits the pulses spell, or fails at the first pulse out of tolerance |
| Nec.DecodeFrame | middleware/ir/ir_rx_nec.c:49-86 | the code decodes what `Decode` says |
| Nec.DecodeInvertsEncodeIff | middleware/ir/ir_rx_nec.c:15-86 | a pulse list decodes to (address, command) if and only if its first 66 pulses lie in the tolerance bands of that frame's encoding and its leader space exceeds 3375 |
| Nec.DecodedFramesAreFrames | middleware/ir/ir_rx_nec.c:70-84 | whatever decodes as a frame carries its address and command with correct complements |
| Nec.BandsAreDisjoint | middleware/ir/ir_rx_nec.c:15-20 | no pulse list lies in the bands of two frames |
| Nec.RepeatDecodesIff | middleware/ir/ir_rx_nec.c:49-62 | a pulse list decodes as a repeat if and only if it has three pulses and starts in the bands of the encoded repeat |
| NecLaws.FrameIsSpelledOut | middleware/ir/ir_tx_nec.c:23-51 | in microseconds: 9000 on, 4500 off, then for each bit of address, complement, command, complement, most significant first, 560 on and 1690 or 560 off, last 560 on |
| NecLaws.RepeatIsSpelledOut | middleware/ir/ir_tx_nec.c:53-68 | 9000 on, 2250 off, 560 on |
| NecLaws.FrameIsHeardIff | middleware/ir/ir_rx_nec.c:15-86 | which measured widths decode to a frame, bit by bit and in microseconds |
| NecLaws.RepeatIsHeardIff | middleware/ir/ir_rx_nec.c:15-62 | which measured widths decode to a repeat, in microseconds |
| NecLaws.AnythingElseIsTurnedAway | middleware/ir/ir_rx_nec.c:49-86 | decoding fails if and only if the widths are neither a repeat's nor those of any frame |
| IrLink.FrameIsPlayed | drivers/device/ir_tx/ir_tx_drv.c:94-140 | an idle transmitter plays an encoded frame as 67 segments of alternating carrier, each boundary an edge |
| IrLink.FrameCrossesLink | middleware/ir/ir_rx.c:16-40 | a frame heard within tolerance by a quiet receiver with room is queued as one burst that decodes to the address and command sent |
| IrLink.TryReadNec | middleware/ir/ir_rx.c:148-180 | the oldest burst is taken and decoded; a burst that does not decode is consumed and reported |
| I2c.CallbackRunsAtMostOnce | drivers/platform/stm32f2/i2c/i2c.c:62-188 | over every run a request that got the lock has its callback run at most once, and one turned away never |
| I2c.TurnedAwayIsNeverCalled | drivers/platform/stm32f2/i2c/i2c.c:137-154 | a parameter or busy error leaves the bus alone and the callback is never run |
| I2c.IdleBusStoresNothing | drivers/platform/stm32f2/i2c/i2c.c:114-135 | over every run an unlocked bus stores no callback and no timeout, so taking the lock forgets no timer |
| I2c.CallbackRunsUnlocked | drivers/platform/stm32f2/i2c/i2c.c:62-83 | when a callback runs, the lock is free, the timeout cancelled and nothing of the request stored |
| I2c.ExactlyOnceIff | drivers/platform/stm32f2/i2c/i2c.c:62-188 | every request that got the lock is waiting on it or was called exactly once if and only if no device probe released the lock while a request held it |
| I2c.EveryRequestCompletesOnce | drivers/platform/stm32f2/i2c/i2c.c:389-447 | with a timer for every accepted transfer each request is called exactly once, by the terminal interrupt that ends its transfer or by the failing start |
| I2c.StartReports | drivers/platform/stm32f2/i2c/i2c.c:162-188 | a start that gets the lock but no running transfer returns an I/O error and calls its own callback once with it; every other start calls nobody, and succeeds exactly when everything is granted |
| I2c.OkMeansTransferred | drivers/platform/stm32f2/i2c/i2c.c:162-447 | over every run, refused timers and probes included: a callback is told of success only by the completed, or not timed-out aborted, transfer of its own request, and of an I/O error otherwise |
| I2c.RefusedTimerLosesRequest | drivers/platform/stm32f2/i2c/i2c.c:366-387 | without it: an orphaned transfer ending under a device probe frees the lock, and the next request is lost for good |
| I2c.TimedOutAbortFails | drivers/platform/stm32f2/i2c/i2c.c:434-447 | a request that timed out is reported failed when its abort completes |
| I2c.TimeoutUs | drivers/platform/stm32f2/i2c/i2c.c:99-106 | the timeout is never zero, is the milliseconds times 1000 exactly when that is positive and fits 32 bits, and 1000 for no milliseconds |
| I2c.Driver.FinishWith | drivers/platform/stm32f2/i2c/i2c.c:62-83 | the code of the finish is the machine's |
| I2c.Driver.BusAcquire | drivers/platform/stm32f2/i2c/i2c.c:114-135 | the lock is taken if free, else busy is reported |
| I2c.Driver.AsyncStart | drivers/platform/stm32f2/i2c/i2c.c:174-188 | a started transfer gets its timeout; a start or timer failure releases the lock and then calls back |
| I2c.Driver.StartTransfer | drivers/platform/stm32f2/i2c/i2c.c:310-336 | an asynchronous transfer is the machine's start, status included |
| I2c.Driver.TimeoutCallback | drivers/platform/stm32f2/i2c/i2c.c:85-97 | the timeout forgets its id and marks the abort |
| I2c.Driver.TransferEnded | drivers/platform/stm32f2/i2c/i2c.c:389-447 | the terminal callbacks of the peripheral are the machine's |
| Imu.BringUpFollowsScript | middleware/sensor/sensor_mpu6050.c:147-218 | over every run that initialises once, with interrupts between the task's steps: running only after wake, WHO_AM_I reading 0x68, SMPLRT, CONFIG, GYRO and ACCEL completed well in that order; at most one access outstanding during bring-up; the byte on the bus is the shared byte throughout |
| Imu.RunningIsEnteredAfterScript | middleware/sensor/sensor_mpu6050.c:202-207 | the step that enters the running mode has exactly the script behind it |
| Imu.ErrorIsFinal | middleware/sensor/sensor_mpu6050.c:80-88 | the error mode is never left without initialisation |
| Imu.ReinitKeepsByteIff | middleware/sensor/sensor_mpu6050.c:239-256 | initialising again with a write on the bus keeps the byte being sent if and only if it is the wake byte |
| Imu.GoodRoundsBringUpIff | middleware/sensor/sensor_mpu6050.c:147-207 | six good accesses bring the sensor up if and only if WHO_AM_I reads 0x68 and the sample timer is granted |
| Imu.ErrorIffWentWrong | middleware/sensor/sensor_mpu6050.c:80-256 | over every run that initialises once the sensor is in error if and only if a probe or access failed, the identity was wrong, a bring-up access was not started, or a timer was not granted |
| Imu.SampleStartsRead | middleware/sensor/sensor_mpu6050.c:136-145 | a sample message in the running mode starts the 14-byte read at 0x3B, or leaves a busy bus alone; elsewhere it does nothing |
| Imu.TickPostsSample | middleware/sensor/sensor_mpu6050.c:63-78 | a tick posts one sample message if there is room, and re-arms or gives the sensor up |
| Imu.EndPostsResult | drivers/device/mpu6050/mpu6050.c:32-49 | the end of an access posts its result if there is room, opens the gate and leaves what was read |
| Imu.RunningResult | middleware/sensor/sensor_mpu6050.c:147-218 | a good result leaves the running mode as it is; a bad one ends it with its timer |
| Imu.TickLeadsToRead | middleware/sensor/sensor_mpu6050.c:63-145 | on every reachable running sensor at rest a tick leads to the 14-byte read on the bus |
| Imu.Sensor.StartMem | drivers/device/mpu6050/mpu6050.c:51-103 | an access is started only through the open gate, which closes exactly when the bus takes it |
| Imu.Sensor.WriteReg | drivers/device/mpu6050/mpu6050.c:133-137 | the shared byte is stored before the gate is tested |
| Imu.Sensor.I2cDone | drivers/device/mpu6050/mpu6050.c:32-49 | the gate opens before the completion is posted |
| Imu.Sensor.OnI2cDone | middleware/sensor/sensor_mpu6050.c:147-218 | the handler is the machine's next stage followed by its start |
| Imu.Sensor.HandleNext | middleware/sensor/sensor_mpu6050.c:258-276 | one message taken and handled |
| Imu.Sensor.ArmSampleTimer | middleware/sensor/sensor_mpu6050.c:100-114 | the sample timer is armed, or the sensor fails |
| Imu.Sensor.SampleTimerCallback | middleware/sensor/sensor_mpu6050.c:63-78 | the tick posts a sample message if there is room and re-arms |
| Imu.Sensor.SensorInit | middleware/sensor/sensor_mpu6050.c:239-256 | from any mode a good probe starts the wake access and a bad one fails; the sample timer is forgotten |
| Cli.ChunksDoNotMatter | middleware/cli/cli.c:55-79 | the lines processed depend only on the byte stream, however it is cut into reads |
| Cli.LinesAreRunTails | middleware/cli/cli.c:61-77 | the lines are those of the stream cut at CR and LF, each run of n characters leaving its last n mod 64, empty ones skipped |
| Cli.LineIsWholeIff | middleware/cli/cli.c:72-76 | a typed run is processed whole if and only if it has at most 63 characters |
| Cli.WordsAreMaximalRuns | middleware/cli/cli.c:90-107 | the words are exactly the maximal non-blank runs |
| Cli.WordsAreOrdered | middleware/cli/cli.c:90-107 | and they come left to right |
| Cli.SplitWords | middleware/cli/cli.c:81-107 | the in-place cutter leaves, at the places it returns, exactly the first at most six words before the first NUL as strings of their own |
| CommandLine.Console.RegisterCommand | middleware/cli/cli.c:165-186 | afterwards the name means the new handler and every other name what it meant; refused as full only for a new name in a table of sixteen |
| CommandLine.Console.ProcessLine | middleware/cli/cli.c:81-119 | a line calls the command its first word names with its words, complains, or does nothing |
| CommandLine.Console.TakeByte | middleware/cli/cli.c:61-77 | one byte extends, ends or drops the line, and an ended line leads to its outcome |
| CommandLine.Console.RxHandler | middleware/cli/cli.c:55-79 | the ring is read dry in chunks, and every line completed has led to its outcome in order |
| CommandLaws.FirstWordsAreFirstRuns | middleware/cli/cli.c:81-107 | the words of a line are its first non-blank runs, left to right, at most six and with none left out between |
| CommandLaws.LineMeans | middleware/cli/cli.c:81-119 | a line without words does nothing; otherwise the command named by the first word is called with all the words, or there is a complaint exactly when no entry has that name |
| CommandLaws.NoRunsIffBlank | middleware/cli/cli.c:90-111 | a line has no words if and only if it is all blanks and tabs |
| CliWake.ReceptionIsAttendedIff | drivers/platform/stm32f2/uart/uart.c:175-195 | received bytes are seen to if and only if their message is accepted, or a receive message or a reader is already there |
| CliWake.ReceptionIsThePorts | drivers/platform/stm32f2/uart/uart.c:175-195 | a reception queues what `Uart.Port.RxEventCallback` queues, at most 255 bytes in all, and sends one message if anything fitted and fewer than eight are waiting |
| CliWake.EveryByteIsConsumed | middleware/cli/cli.c:37-79 | over every such run the task has consumed, and the ring holds, exactly the bytes received while there was room, told from the steps; asleep, it has consumed them all |
| CliWake.OneWakeUpAnswersAll | middleware/taskmanager/taskmanager.c:238-241 | piled-up notifications with nothing to do cost the task one turn |
| CliWake.NoInputIsStranded | middleware/cli/cli.c:37-79 | over every run with only receive messages in the inbox, refused sends included: at its wait with bytes in the ring the task has a message and a positive notification count |
| CliWake.TaskReadsEverything | middleware/cli/cli.c:151-163 | left alone, a woken task reaches its wait with inbox and ring empty and everything consumed |
| CliWake.StrandedStays | middleware/cli/cli.c:151-163 | bytes left without a message stay unread until more are received |
| CliWake.ForeignMessagesStrand | middleware/taskmanager/taskmanager.c:202-225 | an inbox full of other messages strands the next byte |
| TaskManager.Manager.Find | middleware/taskmanager/taskmanager.c:16-40 | finds the slot of a node, or a free slot, exactly when there is one |
| TaskManager.Manager.Init | middleware/taskmanager/taskmanager.c:112-171 | registers a node with an empty inbox, or leaves every node as it was |
| TaskManager.Manager.Self | middleware/taskmanager/taskmanager.c:243-255 | the node of the running task, or none exactly when it is not registered |
| TaskManager.Manager.SendMessage | middleware/taskmanager/taskmanager.c:173-200 | if and only if the receiver has room, the message, stamped with its sender, is appended to its inbox and its notification count goes up by one; no other node changes, and otherwise none does |
| TaskManager.Manager.SendFromIsr | middleware/taskmanager/taskmanager.c:202-225 | the same from an interrupt, stamped as such |
| TaskManager.Manager.Recv | middleware/taskmanager/taskmanager.c:60-78 | the running task gets the oldest message of its own inbox |
| TaskManager.Manager.TakeNotif | middleware/taskmanager/taskmanager.c:238-241 | the running task goes on exactly if it has been notified, and its count starts afresh |
| TaskManager.NotificationsCountMessages | middleware/taskmanager/taskmanager.c:173-241 | over every run a node's notification count is the number of messages accepted for it since it last slept or joined |
| TaskManager.NothingOfferedIsLost | middleware/taskmanager/taskmanager.c:60-225 | over every run what a node was sent while it had room, told from the events, is what it has fetched and what is in its inbox, in order |
| TaskManager.EveryNodeGetsItsMessages | middleware/taskmanager/taskmanager.c:173-236 | over every run each node has received exactly what was sent to it, in order, but for its inbox |

## Left out

- Clock, GPIO, EXTI, MPU and power setup, LED driver, BSP tables, startup code, linker scripts and build scripts: register plumbing and constants.
- HAL and FreeRTOS internals: replaced by the abstract machines above; that transfers end is not proved.
- The stm32n6 copies of `uart.c`, `i2c.c` and `h_timer.c`: their protocol parts repeat the stm32f2 text.
- UART error recovery, ring and slot-queue reset, and the uninit paths: they break the single-producer roles or tear state down.
- `ir.c`, `ir_tx.c`, `sensor.c`, `serial.c` and `app/tasks`: thin dispatch. A burst whose message is refused by a full IR inbox waits for the next message.
- Floating-point conversion and sample freshness in the sensor's running mode: the raw buffer is shared with the next read, and no guarantee follows from the code.
- The failure of the line allocation and the not-ready case in `log_printf`, and null-pointer guards throughout: they return without effect.
- Imu.BringUpFollowsScript: covers runs that initialise once, as the firmware does; initialising again forgets a pending sample timer and overwrites the shared byte (`Imu.ReinitKeepsByteIff`).
- IrRx.CaptureIsExact: does not cover runs with a release between the load and the store of the queue's count, because there the count comes out short and a later burst can overwrite one not yet taken; `SlotQueue.DecrementIsExactIff` gives the exact condition.
- Byte addressing inside slot storage (index times element size) in `SlotQueue.SlotQueue`: slots are elements of an array; the interrupted consumer does copy byte by byte.
- SlotQueue.InterleavingIsSafe: does not cover runs with a release inside the decrement, because the property is false there; `SlotQueue.DecrementIsExactIff` gives the exact condition.
- SoftTimerRuns.TimersAreNeverEarly: bounds each registration's delay plus the callback time elapsed when it is made by half a period, because beyond it a pass that reaches the registration runs it early (`SoftTimerLimits.LateRegistrationRunsIff`).
- SoftTimerRuns.NeverDead: bounds how overdue every active timer is when an interrupt is served by half a period, not just how late the interrupt is, because beyond it the property is false (`SoftTimerLimits.StaleTimerLeavesMultiplexerDead`).
- SoftTimerMatch.MatchIsOnTime: covers runs in which no event leaves a timer overdue by half a period, because beyond it the match is a counter period off; `SoftTimerMatch.RescheduleMatchesIff` gives the exact condition.
- IrSignal.SignalIsTheWaves: assumes that the segment timer fires when it is due; `SoftTimerPeriod.TimersAreOnTime` and `SoftTimerMatch.MatchIsOnTime` have when it does.
- ConsolePosts.PostIsQueuedIff: a post that finds eight messages waiting is refused at once; that the sender first waits up to ten milliseconds for room is a later post of the model.
- CliWake.NoInputIsStranded: assumes only receive messages in the inbox, which is what the firmware sends; otherwise it is false (`CliWake.ForeignMessagesStrand`).
- I2c.EveryRequestCompletesOnce: assumes a timer for every accepted transfer; `Board.RequestsCompleteOnce` proves it of the board, and `I2c.ExactlyOnceIff` gives the exact condition without it.
- TimerClients.ClientsOwnTheirTimers: assumes that an id is overwritten only with nothing stored; `Board.DriversOwnTheirTimers` proves it of the four drivers.
- Board: the answers of the I2C peripheral to the sensor's accesses are inputs; the sensor's accesses are not joined to the bus's requests.
- Imu.Sensor.StartMem: the bus's answer is a parameter, as is the timer id a registration returns in `I2c.Driver.AsyncStart` and `Imu.Sensor.ArmSampleTimer`.
- LogTask.Logger.ServiceWake: runs undisturbed by the transmit interrupt; the interleavings are `Console`'s.
