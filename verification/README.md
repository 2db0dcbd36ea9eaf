# Klipper core, modelled in Dafny

This project models the core logic of the Klipper 3D-printer software and proves properties about that model. It covers both halves of the system.

- **Micro-controller firmware.**
  - The PRU analog-to-digital sampler: one conversion slot shared by eight channels, drained from a tagged FIFO.
  - The AVR GPIO, PWM and ADC setup.
  - The scheduler's wrap-around clock comparison, sorted timer list and shutdown state machine.
  - The move pool, object-id registry, identify chunks and load statistics.
  - Stepper step generation and end stop homing.
  - The buffered serial consoles of the AVR, SAM3X8E and AVR USB ports.
- **Host software.**
  - Step compression and the cross-stepper message merge.
  - 32-to-64-bit clock extension and the serial reader's handler registry, retrying query and identify download.
  - Pin-name maps and pin-name rewriting.
  - The MCU object's configuration helpers.
  - Stepper enable reference counting and endstop phase tracking.
  - The homing state queue.
  - The API server's framing, requests and change-only status updates.
  - The G-code line buffering, tokenizer and dispatch.
  - The C helper's escaping serialiser.
  - The UC1701 display's framebuffer and diffing flush.
  - The simulator's 8N1 serial bridge.
  - The build-time command-table generator.
  - The fan kick-start scheduling.

Each source file is one Dafny module in a file of its own. Three modules are shared by all the others:

| Module | Holds |
|---|---|
| `Wrappers` | `Option`, and `Result`, whose `Err` carries a firmware `shutdown` message or a Python exception |
| `MachineInts` | the 8/16/32/64-bit integer types, explicit wrap-around and C's truncating division |
| `Strings` | the Python string primitives the host code uses |

How the model stands in for the real system:

- **State.** Global and object state becomes datatypes, and operations are pure functions that return the new state. Hardware registers, FIFOs and interrupt flags are fields of explicit hardware records.
- **Side effects.** Messages sent, pins written and timers scheduled are returned as values.
- **Outside calls.** Clocks, float conversions, CRCs, fonts and anything else computed outside the modelled code arrive as parameters.
- **Integer width.** Fixed-width C arithmetic is written out with `W8`/`W16`/`W32`/`W64`. The `bv32` type is used where the source compares wrapped times.

## Model

| member | source | states |
|---|---|---|
| PruAdc.Setup | src/pru/adc.c:22-30 | accepts exactly the pins 128..135 while the control register is non-zero; the handle's channel is the pin minus 128; a pin outside the range fails with "Not an adc channel" before the register is looked at, then a zero register fails with "ADC module not enabled" |
| PruAdc.SetupChannelRange | src/pru/adc.c:24-25 | the 8-bit difference `pin - 4*32` is below 8 exactly for the pins 128..135, so every other byte wraps out of range |
| PruAdc.FirstTagged | src/pru/adc.c:51-53 | finds the first FIFO word whose upper 16 bits name the channel, none before it does, and reports none exactly when no word does |
| PruAdc.Sample | src/pru/adc.c:39-62 | the result is always 0 or 160 and the control register is untouched; from idle it claims the slot, writes exactly `1 << (chan+1)` to stepenable and returns 160; with another owner nothing changes; with this owner it is ready exactly when a word for its channel is queued, stores that first word's low 16 bits, frees the slot and leaves the later words queued, and otherwise drains the FIFO and keeps the claim |
| PruAdc.SampleLoop | src/pru/adc.c:49-61 | the firmware's pop-one-word-per-iteration loop computes exactly the same state, FIFO, step-enable log and delay as `Sample` |
| PruAdc.ReadAfterReady | src/pru/adc.c:53-69 | after a ready poll the owner had claimed the slot, and any handle reads the low 16 bits of the first FIFO word tagged for the poller |
| PruAdc.ReadIsSharedSlot | src/pru/adc.c:63-69 | `gpio_adc_read` ignores its handle: every handle reads the one stored sample, a poll that is still waiting and a cancel leave it unchanged, so only a ready poll (the last writer) replaces it |
| PruAdc.CancelSample | src/pru/adc.c:72-77 | frees the slot only when the caller owns it, otherwise changes nothing; the stored sample is never touched |
| PruAdc.CancelByOtherIsHarmless | src/pru/adc.c:72-77 | a cancel by a non-owner leaves the owner's next poll exactly as it would have been |
| PruAdc.FreedSlotRestarts | src/pru/adc.c:42-47 | after the owner cancels, the next poll by any channel claims the slot for that channel and starts its step |
| AvrGpio.GpioRoundTrip | src/avr/gpio.c:20-22 | a pin built by `GPIO(port, num)` fits a byte, and `GPIO2PORT` and `GPIO2BIT` give back the port index and the bit `1 << num` |
| AvrGpio.GpioBitsDistinct | src/avr/gpio.c:21-22 | two different pins of one port have non-zero, disjoint bit masks |
| AvrGpio.PortCheckOffByOne | src/avr/gpio.c:124-125 | the first pin of the port just past `digital_regs` passes the check as written, although its port has no table entry |
| AvrGpio.PortCheckSound | src/avr/gpio.c:124-128 | the check as written admits the corrected range plus exactly the eight pins of the port one past `digital_regs`; the corrected check is the one written with that single port removed |
| AvrGpio.SetBit | src/avr/gpio.c:131 | the pin's bit ends up set exactly when the value is non-zero; every other bit is kept |
| AvrGpio.OutSetup | src/avr/gpio.c:121-137 | succeeds exactly for a pin whose port is in the table and has registers, failing with "Not an output pin" otherwise; on success only the pin's port changes: its mode bit is set and its output bit follows the value |
| AvrGpio.OutWriteOnlyItsBit | src/avr/gpio.c:144-150 | writing an output (`OutWrite`, `gpio_out_write`) sets its bit iff the value is non-zero and leaves every other output bit, the input and the mode register unchanged |
| AvrGpio.InSetup | src/avr/gpio.c:152-168 | succeeds exactly for a pin whose port is in the table and has registers, failing with "Not an input pin" otherwise; on success only the pin's port changes: its mode bit is cleared and its output bit is the pull-up choice, every other bit and port kept |
| AvrGpio.InRead | src/avr/gpio.c:170-174 | returns 1 when the pin's input bit is set and 0 otherwise |
| AvrGpio.Prescaler | src/avr/gpio.c:197-216 | the clock select is 1..7 for a GP_AFMT timer and 1..5 for the others |
| AvrGpio.PrescalerIsBucket | src/avr/gpio.c:198-216 | the clock select is one more than the number of bucket bounds (multiples of 510 ticks) the cycle time has reached, for both timer kinds |
| AvrGpio.PrescalerMonotone | src/avr/gpio.c:198-216 | a longer cycle time never selects a smaller prescaler |
| AvrGpio.FindPwm | src/avr/gpio.c:193-196 | the scan finds the first `pwm_regs` row for the pin, or reports that none has it |
| AvrGpio.PwmOutput | src/avr/gpio.c:231-234 | the compare register of the row's timer and channel takes the value, TCCRnA gains the fast-PWM bit and the row's COMnx1 enable with its other bits kept, the pin's mode bit is set; no other timer, compare register, port or bit changes |
| AvrGpio.PwmProgram | src/avr/gpio.c:217-237 | fails with "PWM already programmed at different speed" exactly when the timer's clock select is non-zero and differs from the chosen one, before any write; otherwise TCCRnB takes the chosen clock select, the output is enabled as PwmOutput states, and the handle names the row's timer, channel and 8-bit flag |
| AvrGpio.PwmSetup | src/avr/gpio.c:189-240 | a pin without a row fails with "Not a valid PWM pin"; otherwise the first row for the pin (whose timer and port exist) is programmed with the cycle time and initial value |
| AvrGpio.SharedTimerSameSpeed | src/avr/gpio.c:226-229 | two pins on one timer can both be set up only when their cycle times select the same prescaler |
| AvrGpio.AdcEnable | src/avr/gpio.c:252-261 | ADCSRA gains the enable and the divider bits with its other bits kept; the channel's bit is set in DIDR2 for channels 8 to 15 of the ATmega1280/2560 and in DIDR0 otherwise, the other register kept |
| AvrGpio.AdcSetup | src/avr/gpio.c:243-266 | succeeds exactly for a pin in `adc_pins`, with the pin's index in the table as the channel and the register writes AdcEnable states; fails with "Not a valid ADC pin" otherwise, writing nothing |
| AvrGpio.AdcPinsDistinct | src/avr/gpio.c:91-104 | no two rows of an ADC pin table name the same pin, so each pin has one channel |
| AvrGpio.AdcSample | src/avr/gpio.c:277-302 | a busy converter gives 1 with nothing changed; the owner gets 0; another owner's conversion gives 1 with nothing changed; from idle the caller claims the slot, the multiplexer selects its channel, the conversion starts and the result is 1 |
| AvrGpio.MuxKeepsReference | src/avr/gpio.c:294-297 | starting a conversion leaves the bits of ADMUX above the channel field at their default 0x40 |
| AvrGpio.AdcClearSample | src/avr/gpio.c:304-309 | releases the slot only when the caller holds it |
| AvrGpio.AdcRead | src/avr/gpio.c:311-316 | always releases the slot, whoever held it, and returns the conversion result |
| AvrGpio.AdcProtocol | src/avr/gpio.c:277-316 | from idle a poll claims the converter, the next poll after the hardware finishes reports ready, and the read frees the slot |
| AvrGpio.PwmTimersExist | src/avr/gpio.c:52-85 | every row of each chip's PWM table names one of the timers 0 to 5 and one of its channels A to C, on a pin whose port has a register block |
| AvrGpio.AdcPinsIncreasing | src/avr/gpio.c:91-104 | each chip's ADC table lists its pins in increasing order: the ADC channel plus a per-port offset |
| AvrGpio.BucketCount | src/avr/gpio.c:198-216 | over increasing bounds, the count of bounds reached picks the bucket of the cycle time: every earlier bound is reached and the next one is not |
| AvrSerial.RxIsr | src/avr/serial.c:52-59 | below 192 stored bytes the received byte is appended to what the buffer holds; at 192 the byte is dropped and the buffer is unchanged |
| AvrSerial.BurstKeepsPrefix | src/avr/serial.c:52-59 | of a burst of arriving bytes exactly as many as still fit are kept, in arrival order, after what was stored |
| AvrSerial.UdreIsr | src/avr/serial.c:62-68 | with bytes pending the next one goes out and the send position advances by one; with none pending nothing is sent and the interrupt is disabled |
| AvrSerial.PopInput | src/avr/serial.c:91-113 | removing `len` bytes leaves the stored bytes after the first `len`, in order, and lowers the count by `len` |
| AvrSerial.GetOutput | src/avr/serial.c:116-138 | no slot is given exactly when the pending bytes plus `len` exceed 96; pending bytes are never lost or reordered, and a given slot lies at the end of them with `len` bytes of room |
| SerialConsole.PushOutput8 | src/avr/serial.c:141-146 | the 8-bit `transmit_max` grows by `len` modulo 256, nothing else in the buffer changes, and the transmit interrupt is enabled; without wrap-around this is the shared console push (src/sam3x8e/serial.c:144-149 is the same code) |
| AvrUsbSerial.CheckInput | src/avr/usbserial.c:27-38 | characters are moved from the driver into the buffer in order, none lost, until the buffer holds 64 or the driver has none left |
| AvrUsbSerial.PopInput | src/avr/usbserial.c:41-48 | removing `len` bytes leaves the stored bytes after the first `len` |
| AvrUsbSerial.Task | src/avr/usbserial.c:51-61 | a found block (`ret > 0`) is dispatched as the first `pop_count` bytes; both a block and garbage (`ret < 0`) are popped from the front; with no block the buffer is left as read |
| AvrUsbSerial.Sendf | src/avr/usbserial.c:66-77 | a message is sent exactly when its maximum encoded size fits the 64-byte transmit buffer, and then unchanged |
| Sam3xSerial.UartHandler | src/sam3x8e/serial.c:53-71 | a received byte is served first and alone: kept below 96 stored bytes, dropped at 96, nothing sent; otherwise a transmit-ready interrupt sends the next pending byte or disables itself; with neither bit nothing changes |
| Sam3xSerial.ReceiveHasPriority | src/sam3x8e/serial.c:57-64 | with both status bits set the pending output stays pending |
| Sam3xSerial.PopInput | src/sam3x8e/serial.c:94-116 | removing `len` bytes leaves the stored bytes after the first `len`, in order |
| Sam3xSerial.GetOutput | src/sam3x8e/serial.c:119-141 | no slot is given exactly when the pending bytes plus `len` exceed 96; pending bytes are kept in order, and a given slot lies at their end with `len` bytes of room |
| SerialConsole.MoveDown | src/avr/serial.c:99-100 | a forward byte copy towards the front moves the `n` source bytes to the destination and leaves the bytes before and after it as they were |
| SerialConsole.RxByte | src/avr/serial.c:55-58 | a byte is appended to the received bytes while the buffer has room, and dropped with the buffer unchanged when it is full |
| SerialConsole.PopInput | src/avr/serial.c:91-113 | after consuming `len` bytes the received bytes are exactly the old ones after the first `len` |
| SerialConsole.TxReady | src/avr/serial.c:62-68 | sends the first pending byte and leaves the rest pending, or disables the transmit interrupt when nothing is pending |
| SerialConsole.GetOutput | src/avr/serial.c:116-138 | the pending bytes are never lost or reordered; no slot is given exactly when they leave less than `len` bytes of room; a drained buffer is rewound; room already at the end is given without moving anything |
| SerialConsole.SendMessage | src/avr/serial.c:116-146 | obtaining a slot, writing a message into it and pushing it appends the message unchanged after the bytes already pending, exactly when the buffer has room for it; otherwise the pending bytes are unchanged |
| Sched.IsBeforeIrreflexive | src/sched.c:90-94 | no time is before itself under the wrapping comparison `IsBefore` (`sched_is_before`) |
| Sched.IsBeforeShift | src/sched.c:87-94 | shifting both times by the same amount, with 32-bit wrap-around, leaves their order unchanged, so a counter rollover does not disturb comparisons |
| Sched.IsBeforeInWindow | src/sched.c:87-94 | for times less than half the clock range after a common base, the wrapping comparison is the ordinary order of their distances from the base |
| Sched.NotBeforeNextIsAfter | src/sched.c:156-157 | a time not before `t + 1` is exactly a time strictly after `t`, which is why rescheduling compares against the wake time plus one |
| Sched.CheckPeriodic | src/sched.c:60-71 | the event is not due exactly when the 16-bit signed difference from the due time is negative, and then the due time is kept; when due, the next due time is `time` milliseconds after now, modulo 2^16 |
| Sched.PeriodicFiresEveryTime | src/sched.c:60-71 | after an event fires, a later check `d` milliseconds on fires again exactly when `d` reaches the period (periods and waits below 2^15 ms) |
| Sched.PeriodicGap | src/sched.c:67-69 | the wrapped 16-bit distance from `c + t` to `c + d` is non-negative exactly when `d >= t` |
| Sched.InsertPos | src/sched.c:108-110 | the search stops at the first timer strictly after the new one, passing only timers not after it, or at the end of the list |
| Sched.SchedTimer | src/sched.c:99-114 | a timer before the list head is refused with "Timer too close"; otherwise it is inserted after the head and after every timer not after it, in front of the first timer after it |
| Sched.SchedTimerKeepsSorted | src/sched.c:99-114 | inserting a timer whose wake time lies in the window keeps the list ordered by distance from the window's base |
| Sched.InsertSorted | src/sched.c:108-112 | inserting at the split between the timers at or before the new one and those after it keeps a list sorted |
| Sched.Find | src/sched.c:139-145 | the search finds the first occurrence of the timer after the head, or reports that there is none |
| Sched.DelTimer | src/sched.c:128-148 | deleting the head leaves the placeholder deleted timer with the head's wake time in its place; deleting a later timer unlinks its first occurrence; deleting a timer not on the list changes nothing |
| Sched.DelTimerKeepsSorted | src/sched.c:128-148 | deleting any timer keeps a sorted list sorted |
| Sched.RemovedSorted | src/sched.c:141-143 | unlinking one timer keeps a sorted list sorted |
| Sched.Reschedule | src/sched.c:152-176 | the list keeps its length, and the head stays put when the next timer is not before its new wake time plus one |
| Sched.FirstNotBefore | src/sched.c:164-172 | the walk stops at the first timer not before the new wake time plus one, passing only timers before it |
| Sched.RescheduleIsReinsert | src/sched.c:152-176 | rescheduling the head is the same as taking it off and inserting it by the `sched_timer` rule, in front of the first timer strictly after it |
| Sched.RescheduleKeepsSorted | src/sched.c:152-176 | rescheduling keeps the list sorted when the head's new wake time stays in the window |
| Sched.MsEvent | src/sched.c:28-36 | the millisecond count grows by one modulo 2^16, the ms timer advances by one millisecond of ticks modulo 2^32, the sentinel stays half the clock range after it, and the timer asks to be rescheduled |
| Sched.SentinelInvariantHolds | src/sched.c:38-57 | the sentinel sits half the clock range after the ms timer at reset and after every ms event |
| Sched.SentinelBoundsEveryTimer | src/sched.c:43-47 | any wake time not before the ms timer is before the sentinel, so the insertion search ends at the sentinel at the latest |
| Sched.TimerShutdown | src/sched.c:205-212 | after shutdown only the placeholder at the ms timer's wake time, the ms timer and the sentinel remain, in that order |
| Sched.SchedShutdown | src/sched.c:249-282 | a shutdown always enters the shutdown handlers; only a shutdown while running records its reason, and otherwise the first reason is kept |
| Sched.TryShutdown | src/sched.c:265-270 | a shutdown request is ignored while the handlers run, and is a shutdown otherwise |
| Sched.ClearShutdown | src/sched.c:237-246 | clearing while running is itself a shutdown with the "not shutdown" reason; clearing while the handlers run is ignored; clearing after shutdown returns to running |
| Sched.FirstReasonSticks | src/sched.c:276-282 | after a first shutdown from normal running, any number of further shutdown requests leave the reported reason as the first one |
| BaseCmd.MoveFree | src/basecmd.c:23-28 | the freed move becomes the head of the free list, in front of the moves already free |
| BaseCmd.MoveAlloc | src/basecmd.c:30-40 | an empty free list fails with "Move queue empty"; otherwise the head move is handed out and the rest stays free in order |
| BaseCmd.AllocAfterFree | src/basecmd.c:23-40 | the pool is last-in first-out: allocating right after freeing returns the move just freed and the pool as it was |
| BaseCmd.MoveReset | src/basecmd.c:42-53 | with no moves nothing changes; otherwise every move links to the next by index, the last to NULL, and the free list starts at move 0 |
| BaseCmd.ResetFreesAllInOrder | src/basecmd.c:42-53 | following the links from the head after a reset visits every move exactly once, in index order |
| BaseCmd.LookupOid | src/basecmd.c:70-76 | succeeds exactly when the oid is below the table size and registered with the asked type, returning its data, and fails with "Invalid oid type" otherwise |
| BaseCmd.AssignOid | src/basecmd.c:78-85 | fails with "Can't assign oid" exactly when the oid is out of range, already has a type, or the config is finalized; otherwise only that slot changes, to the given type and data |
| BaseCmd.LookupAfterAssign | src/basecmd.c:70-85 | an object registered under a type is found again under that type, and lookups of every other oid are unaffected |
| BaseCmd.NextFrom | src/basecmd.c:102-110 | the scan finds the first oid at or after its start registered with the type, or reports that none is |
| BaseCmd.NextOid | src/basecmd.c:98-111 | the result is the first oid strictly after the 8-bit counter (255 standing for -1) registered with the type, or none when no later oid is |
| BaseCmd.ForeachVisitsEachInOrder | src/basecmd.c:98-111 | iterating with `next_oid` from -1 visits exactly the oids registered with the type, each once, in increasing order |
| BaseCmd.AllocateOids | src/basecmd.c:113-124 | fails with "oids already allocated" exactly when a table exists; otherwise the table has `count` truncated to 8 bits slots, all empty |
| BaseCmd.FinalizeConfig | src/basecmd.c:135-149 | fails with "Can't finalize" without allocated oids or when already finalized, and with "malloc failed" when no move fits; with allocated oids, not yet finalized and room for a move it succeeds: the config is finalized with the crc, the oid table is kept, and every move is free in index order |
| BaseCmd.ConfigIsOneShot | src/basecmd.c:78-149 | after finalization no oid can be assigned and neither allocation nor a second finalization succeeds |
| BaseCmd.Identify | src/basecmd.c:287-299 | the chunk sent is the data from the offset on, at most `count` (8-bit) bytes, ending at the data's end when clipped, and empty when the offset is at or past the end |
| BaseCmd.SatAdd32 | src/basecmd.c:202-205 | the 32-bit sum saturates at 0xffffffff instead of wrapping |
| BaseCmd.StatsTask | src/basecmd.c:194-213 | every call counts one event and adds the squared gap, saturating; a report is sent exactly when five seconds have passed since the last one, with the count, the ticks covered and the sum, after which the counters restart at the current time |
| Stepper.Config | src/stepper.c:85-96 | a new stepper is idle with an empty queue, its position at the bias 0x40000000, the step pin at its rest level and the direction pin low |
| Stepper.GetPosition | src/stepper.c:157-165 | the raw position `position - count` is reported as it is when its top bit is clear and negated (modulo 2^32) when set |
| Stepper.ReportedNegation | src/stepper.c:54-55 | negating the raw position, which a direction change does, does not change the reported position |
| Stepper.LoadNext | src/stepper.c:37-64 | with an empty queue the stepper goes idle, failing with "No next step" exactly when `interval - add` is below the minimum stop interval; otherwise the first move is loaded (wake time advanced by its interval, the interval then grown by its add, its count), its node is freed, the position is negated on a direction change with the direction pin toggled, and the timer is rescheduled |
| Stepper.Event | src/stepper.c:66-83 | within a move one step counts down, advances the wake time by the interval and grows the interval by `add`; the last step of a move loads the next one |
| Stepper.EventIsOneStep | src/stepper.c:54-83 | every step moves the raw position one further from the last direction change, and a move that reverses direction negates it |
| Stepper.LoadKeepsPosition | src/stepper.c:49-59 | loading a move into an idle stepper does not change the reported position, even when the move reverses direction |
| Stepper.SetNextStepDir | src/stepper.c:137-142 | only the next-direction flag changes |
| Stepper.QueueStep | src/stepper.c:102-132 | an empty pool fails with "Move queue empty" and a zero count with "Invalid count parameter", and with a free move and a nonzero count it succeeds; the move is a direction change exactly when the last and next directions differ, after which they agree; an active stepper appends the move at the queue's tail; an idle one loads it at once (its queue empty again and the move's node back in the pool) and asks for its timer |
| Stepper.Signed16 | src/stepper.c:116 | the `%hi` argument keeps its low 16 bits, read as a signed number |
| Stepper.QueueIsFifo | src/stepper.c:119-125 | queueing on an active stepper keeps every earlier move ahead of the new one |
| Stepper.ResetStepClock | src/stepper.c:145-154 | fails with "Can't reset time when stepper active" exactly when the stepper is active; otherwise only the wake time changes |
| Stepper.Reset | src/stepper.c:167-175 | the stepper is idle, keeps its reported position, keeps only the invert-step flag and drives the direction pin low |
| Stepper.Stop | src/stepper.c:177-189 | the stepper is reset with an empty queue and every queued move goes back to the pool |
| Stepper.StopReturnsEveryNode | src/stepper.c:184-188 | stopping conserves moves: every node the stepper held is in the pool afterwards |
| Stepper.Shutdown | src/stepper.c:191-201 | each stepper is reset with its queue dropped and its step pin at the rest level, keeping its reported position |
| Stepper.StepsClosedForm | src/stepper.c:72-78 | after `k` steps within a move the wake time has advanced by `k` intervals plus `add * k * (k - 1) / 2`, and the interval by `k * add`, modulo 2^32 |
| Stepper.MoveTakesMoveTicks | src/stepper.c:49-78 | loading a move and stepping to its last step takes `count * interval + add * count * (count - 1) / 2` ticks modulo 2^32, the time the host's step compression assigns the move |
| EndStop.Home | src/endstop.c:53-69 | the wake time and rest time are recorded; a zero rest time clears both flags and schedules nothing; otherwise the awaited pin level is recorded, only the homing flag is set and the timer is scheduled |
| EndStop.Event | src/endstop.c:25-39 | while the pin differs from the awaited level the poll is rescheduled one rest time later with nothing else changed; at the awaited level homing ends with a report flagged, the stepper is stopped and the timer is done |
| EndStop.TriggerHaltsStepper | src/endstop.c:35-38 | the poll that sees the awaited level leaves the stepper idle with an empty queue at the position it had reached |
| EndStop.MakeReport | src/endstop.c:73-85 | only the report flag is cleared; the message carries the oid, the homing flag and the pin reading, and the stepper position less the bias as a signed 32-bit number |
| EndStop.Flagged | src/endstop.c:104-106 | only items whose report flag is set are kept |
| EndStop.ReportAll | src/endstop.c:104-108 | every report flag is cleared with the rest of each end stop kept, and one message is sent per flagged end stop, in oid order |
| EndStop.Task | src/endstop.c:96-109 | before the 50 ms period is due nothing changes and nothing is reported; when due, exactly the flagged end stops are reported; the next due time follows the periodic check |
| StepCompress.Alloc | klippy/stepcompress.c:250-261 | a new compressor has no pending steps, no errors and no queued messages |
| StepCompress.Cleaned | klippy/stepcompress.c:46-56 | after compaction the pending steps start at the array's front, `relclock` is zero and every pending step keeps its time relative to the last step sent |
| StepCompress.CleanQueue | klippy/stepcompress.c:46-56 | the copy loop rebases each pending time and moves it to the front, giving exactly the compacted queue |
| StepCompress.GrowTo | klippy/stepcompress.c:71-72 | doubling stops at the first size that holds the entries needed, never below the start size |
| StepCompress.Grown | klippy/stepcompress.c:66-76 | reallocation keeps the offsets and the existing entries and leaves room for `count` more after the pending ones |
| StepCompress.ExpandQueueAsWritten | klippy/stepcompress.c:58-77 | the source's `expand_queue`, which compacts whenever `count` alone fits the array |
| StepCompress.ExpandQueueOverrun | klippy/stepcompress.c:62-65 | with 1000 of 1024 entries pending from the array's start and 100 requested, the source compacts and leaves room for only 24, so the next writes run past the array |
| StepCompress.ExpandQueue | klippy/stepcompress.c:58-77 | with the room test counting the pending entries, afterwards `count` more entries fit and every pending step keeps its time |
| StepCompress.CheckExpand | klippy/stepcompress.c:79-85 | after the check `count` more entries fit, the pending steps keep their times, and the clock and messages are unchanged |
| StepCompress.Push | klippy/stepcompress.c:263-270 | the pending steps keep their times and the new step is appended at its clock less the last step's clock, modulo 2^32 |
| StepCompress.IDivUp | klippy/stepcompress.c:94-98 | the result is the ceiling of `n / d` for every sign of `n` |
| StepCompress.IDivDown | klippy/stepcompress.c:100-104 | the result is the floor of `n / d` for every sign of `n` |
| StepCompress.MinMaxPoint | klippy/stepcompress.c:110-121 | a pending step's window tops out at its time relative to the last step sent and starts earlier by half its distance from the previous step, capped at `max_error`, the first pending step being measured from the last step sent; both bounds are the 32-bit values, exactly so without wrap-around |
| StepCompress.GapIsRelative | klippy/stepcompress.c:114-116 | the distance between two queued steps, taken on the absolute 32-bit clock, is the difference of their times relative to `relclock` that the source computes, and the first pending step's distance is its relative time |
| StepCompress.Window | klippy/stepcompress.c:115-120 | for a step `gap` ticks after the previous one the error is half the gap capped at `max_error`; the window's top is the step time and its bottom is the time less the error, modulo 2^32, and exactly so when no wrap-around occurs |
| StepCompress.FitRun | klippy/stepcompress.c:148-168 | the inner search covers at least one and at most all candidate steps and reports reaching the end exactly when it covered them all; the interval range only narrows, and when it starts inside the first step's window a positive final `maxinterval` puts every step of the run in its window |
| StepCompress.ExtendRun | klippy/stepcompress.c:152-166 | taking the next step into account adds `count` to the add multiplier and narrows the interval range; a range that stays non-empty keeps every later step of the longer run in its window |
| StepCompress.NarrowInterval | klippy/stepcompress.c:156-161 | the bounds only move inwards; the lower one then reaches the step's window bottom, and the upper one stays below its top whenever it is positive, the source's truncating division making no promise for a bound that is not |
| StepCompress.NarrowAdd | klippy/stepcompress.c:175-201 | after a failed run the add range only shrinks, and the add just tried falls outside it, so the bisection terminates; the next run starts from the failed run's `maxinterval` when it fell short of the step and from its `mininterval` otherwise |
| StepCompress.KeepBest | klippy/stepcompress.c:169-173 | the kept candidate is the old best or the new one, and neither beats it: a longer run wins and equal runs prefer the larger add |
| StepCompress.BestOfIsBest | klippy/stepcompress.c:147-173 | over all tried adds the kept candidate is one of them (or the start) and none beats it |
| StepCompress.CompressBisectAdd | klippy/stepcompress.c:135-211 | the move covers between 1 and all pending steps (at most 65535) and a move of fewer than two steps has no add; a move short of that span is the best of the runs tried (longest, then largest add), each of which fits its steps; a move whose interval is in range puts every step it covers in its window |
| StepCompress.TryAdd | klippy/stepcompress.c:147-201 | one round for an `add` returns a run of that add whose positive interval fits its steps, and after a failed run an add range that shrinks and excludes the add just tried, with the next interval range still inside the first step's window |
| StepCompress.LineStateClosedForm | klippy/stepcompress.c:230-241 | the i-th time `check_line` computes is `(i+1)*interval + add*i*(i+1)/2` and its interval `interval + i*add`, modulo 2^32 |
| StepCompress.LastCheckedIsMoveEnd | klippy/stepcompress.c:230-241 | the last time `check_line` checks is where the firmware steps the move's last step |
| StepCompress.Misses | klippy/stepcompress.c:232-238 | the count of missed steps is zero exactly when every step up to that point lies in its window |
| StepCompress.CheckLine | klippy/stepcompress.c:218-243 | only the error count changes: by one for a move out of range (zero count or interval, interval at or above 2^31) and one per step outside its window, so it stays unchanged exactly when the move is in range and reproduces every step |
| StepCompress.LineStateIsStepTime | klippy/stepcompress.c:230-241 | the time `check_line` computes for step `i` is the step's exact time relative to the last step sent, `(i+1)*interval + add*i*(i+1)/2`, modulo 2^32 |
| StepCompress.FitStepInWindow | klippy/stepcompress.c:232-236 | a step whose exact time lies in its window, the window not reaching below the last step sent, passes `check_line`'s 32-bit comparison |
| StepCompress.FitPassesCheck | klippy/stepcompress.c:218-243 | an in-range move whose steps all fit windows that start at or after the last step sent leaves the error count unchanged: what `compress_bisect_add` promises is what `check_line` accepts |
| StepCompress.FlushTicksOverflow | klippy/stepcompress.c:344-345 | for a 46342-step move with add 1 the source's duration (`FlushTicksAsWritten`, whose `count*(count-1)` overflows `int`) comes out 2^31 ticks off the firmware's |
| StepCompress.FlushTicksAgree | klippy/stepcompress.c:344-345 | below that overflow the source's duration equals the exact one |
| StepCompress.FlushTicks | klippy/stepcompress.c:344-345 | with the add multiplier computed exactly, a move's duration is the firmware's time from the previous step to the move's last step, modulo 2^32 |
| StepCompress.FlushMove | klippy/stepcompress.c:333-354 | one round queues the move's message at the last step's time, advances the clock by the move's duration, and consumes its steps; when they were all the pending steps the queue restarts empty at the array's front, and otherwise `relclock` advances with the clock |
| StepCompress.FlushMoveKeepsTimes | klippy/stepcompress.c:347-353 | the steps left after a round keep their absolute times |
| StepCompress.Flush | klippy/stepcompress.c:327-355 | an empty queue is left alone; otherwise the loop ends with the clock caught up or the queue empty and restarted; the steps left keep their times, earlier messages are kept, at most one message is added per consumed step, and at least one when the clock was behind |
| StepCompress.Reset | klippy/stepcompress.c:357-363 | everything pending is flushed, earlier messages kept, and the clock restarts at the given value |
| StepCompress.QueueMsg | klippy/stepcompress.c:365-375 | everything pending is flushed, then the message is queued last at the last step's time with the largest `min_clock` |
| StepperSync.AllocClocks | klippy/stepcompress.c:408-427 | the zero-filled move clocks have one entry per MCU move and form a heap |
| StepperSync.HeapRootIsMin | klippy/stepcompress.c:429-430 | the root of the heap is the earliest time a move slot frees up |
| StepperSync.SiftDown | klippy/stepcompress.c:444-450 | moving the smaller child up moves the hole one level down and keeps the sift-down invariant |
| StepperSync.SiftPlace | klippy/stepcompress.c:440-443 | placing the new clock in the hole when it is no later than the hole's children completes a heap |
| StepperSync.HeapReplace | klippy/stepcompress.c:431-452 | replacing the root by the new clock and sifting it down gives a heap of the same size holding exactly the old entries with the root replaced |
| StepperSync.Lowest | klippy/stepcompress.c:468-481 | the scan picks the queue whose first message has the lowest `req_clock` below the limit, the earliest queue on a tie, or none when no first message is below the limit |
| StepperSync.TotalDrop | klippy/stepcompress.c:495-496 | taking a message off a queue lowers the number of queued messages by one |
| StepperSync.MergeOrderedStep | klippy/stepcompress.c:467-497 | with sorted queues, batching the lowest first message keeps the batch sorted and no later than anything still queued |
| StepperSync.Merge | klippy/stepcompress.c:463-497 | messages leave their queues only from the front; the batch holds exactly the messages taken, with only `min_clock` changed, and each queue's messages in the batch are, in order, the front taken from it; each message is stamped with the least move clock at its turn, and a step message replaces that clock by its `req_clock`; the loop stops when no message is below the limit or the lowest one is a step message due after `move_clock`; the move clocks stay a heap; with sorted queues the batch is in nondecreasing `req_clock` order |
| StepperSync.TakenStep | klippy/stepcompress.c:494-496 | moving the front message of queue `b` into the batch extends queue `b`'s taken front by exactly that message and leaves every other queue's |
| StepperSync.StampStep | klippy/stepcompress.c:486-492 | the heap's root is the least move clock, so the message gets the least clock, and after a step message's replacement the clocks are the next entry of the stamp replay |
| StepperSync.MergeStepKeeps | klippy/stepcompress.c:494-496 | moving the front message of a queue into the batch keeps each queue a suffix of its original and conserves the message count |
| StepperSync.FlushAll | klippy/stepcompress.c:458-461 | every stepper's compression queue is flushed: each one with pending steps either reaches `move_clock` or is emptied, and its step times are kept |
| StepperSync.SyncFlush | klippy/stepcompress.c:454-502 | every stepper is flushed up to `move_clock` (caught up or emptied), then the messages are merged as above |
| ClockSync.Extend | klippy/clocksync.py:56-61 | the 64-bit clock built from a status message has the message's 32 low bits and lies in the 2^32 window starting at the previous clock, so it never goes backwards |
| ClockSync.ExtendUnique | klippy/clocksync.py:56-61 | every clock in that window is recovered exactly from its low 32 bits, so the extension loses nothing while clocks advance by less than 2^32 |
| ClockSync.HandleStatus | klippy/clocksync.py:54-65 | the last clock is always extended, and the round-trip estimate is only considered when the message carries a non-zero send time |
| ClockSync.Clock32To64 | klippy/clocksync.py:108-113 | a 32-bit clock is widened to the clock with those low bits nearest the last clock, within 2^31 on either side |
| ClockSync.Clock32To64Unique | klippy/clocksync.py:108-113 | every clock within 2^31 of the last clock is recovered exactly from its low 32 bits |
| SerialHdl.HandleStatus | klippy/serialhdl.py:159-167 | the acknowledged clock keeps the status clock's low bits and never decreases by the extension; the receive time is recorded |
| SerialHdl.TranslateClock | klippy/serialhdl.py:113-119 | a response clock is widened to the clock with those low bits within 2^31 of the last acknowledged clock |
| SerialHdl.InitialHandlers | klippy/serialhdl.py:36-41 | a new reader handles exactly six message names, none with an oid, and routes status messages to the status handler |
| SerialHdl.Register | klippy/serialhdl.py:102-104 | registering sets the handler of that name and oid and leaves every other key as it was |
| SerialHdl.Unregister | klippy/serialhdl.py:105-107 | unregistering a missing key raises KeyError; otherwise exactly that key is removed |
| SerialHdl.Dispatch | klippy/serialhdl.py:52-54 | a message goes to the handler registered for its name and oid, otherwise to the default handler |
| SerialHdl.RegistrationIsPerKey | klippy/serialhdl.py:52-54 | a registration is seen by its own key only, and after unregistering a handled key its messages go to the default handler |
| SerialHdl.StartRetry | klippy/serialhdl.py:200-207 | a retrying query starts active, with its send timer registered and its callback installed for the response name |
| SerialHdl.RetrySendEvent | klippy/serialhdl.py:208-213 | while the callback is installed the timer sends the command and runs again 500 ms later; once it is gone the timer is unregistered, sends nothing and never runs again; the handlers are untouched |
| SerialHdl.RetryHandleCallback | klippy/serialhdl.py:214-218 | a response that is not done changes nothing; a done response removes the handler and deactivates, leaving the timer to notice, and fails only when the handler is already gone |
| SerialHdl.NoResendAfterDone | klippy/serialhdl.py:208-218 | once the callback reported done, no sequence of timer events and responses sends the query again |
| SerialHdl.ResendUntilDone | klippy/serialhdl.py:200-218 | while no response is done, each timer event sends the command exactly once and nothing else is sent |
| SerialHdl.HandleIdentify | klippy/serialhdl.py:250-259 | late or out-of-order responses are ignored, an empty chunk finishes the download, and any other chunk is appended and the next 40 bytes requested from the new length |
| SerialHdl.DownloadIsExact | klippy/serialhdl.py:250-266 | against the firmware's identify command, enough request rounds from any correct prefix download the identify data exactly and finish |
| Pins.AddPort | klippy/pins.py:15-16 | adding a port defines exactly the names of its bits, each numbered port*8+bit, and keeps every name already present |
| Pins.AvrPins | klippy/pins.py:9-17 | the table holds exactly the names P<letter><bit> for the first port letters other than I, and each is numbered port*8+bit with I keeping its place in the numbering |
| Pins.PortJ | klippy/pins.py:12-16 | on a twelve-port chip PJ0 is pin 72 and there is no port I |
| Pins.McuToPins | klippy/pins.py:19-29 | a known MCU gets its table (shared between the MCUs that share a chip family); an unknown MCU gets an empty map |
| Pins.AddAliases | klippy/pins.py:85-88 | each alias prefix+str(i) names the same pin number as the i-th listed pin, every other key keeps its value, and a listed pin missing from the table raises KeyError |
| Pins.BoardAliases | klippy/pins.py:84-88 | arN names the N-th digital board pin and analogN the N-th analog board pin, and the mapping fails exactly when a listed pin is unknown |
| Pins.MapPins | klippy/pins.py:81-89 | a non-arduino mapping is the MCU's table; an arduino mapping adds the board aliases and stores them back into the shared table, and fails for an MCU with no board lists |
| Pins.Value | klippy/pins.py:31 | a pin value is the longest run of non-space characters after the token |
| Pins.UpdateCommandFailsOnUnknown | klippy/pins.py:31-35 | rewriting a command (`UpdateCommand`, `update_command`) succeeds exactly when every pin name after a ` pin=` or `_pin=` token is in the map |
| Pins.UpdateCommandRewritesValues | klippy/pins.py:31-35 | a successful rewrite keeps everything but the token values, and the values become the pins' numbers in order |
| Pins.NoTokensUnchanged | klippy/pins.py:31-35 | a command without pin tokens is left unchanged |
| Mcu.ParsePinExtras | klippy/mcu.py:9-17 | the pull-up flag is set exactly when pull-ups are allowed and the name starts with `^`; without it the invert flag is set exactly when the name starts with `!`; an unmodified name is returned as it is |
| Mcu.ParsePinExtrasRoundTrip | klippy/mcu.py:9-17 | a clean pin name written with its `^` and `!` modifiers in that order parses back to the same name and flags |
| Mcu.ParsePinExtrasOrder | klippy/mcu.py:11-16 | written as `!^`, the pull-up is not recognised and the `^` stays in the name |
| Mcu.CreateOid | klippy/mcu.py:406-409 | each new object gets the current count as its id and the count grows by one |
| Mcu.CreateOids | klippy/mcu.py:406-409 | objects created in turn get consecutive ids from the current count |
| Mcu.AddConfigCmd | klippy/mcu.py:410-411 | a config command is appended after those already added |
| Mcu.CleanLine | klippy/mcu.py:350-353 | a cleaned custom line has no comment and no surrounding white space |
| Mcu.CleanLineIdempotent | klippy/mcu.py:350-353 | cleaning a cleaned line changes nothing |
| Mcu.CustomLines | klippy/mcu.py:347-356 | the custom text yields non-blank, comment-free lines without newlines |
| Mcu.CustomLinesRoundTrip | klippy/mcu.py:347-356 | clean commands written one per line are read back as the same commands in the same order |
| Mcu.AddCustom | klippy/mcu.py:347-356 | the custom lines are appended after the commands already added and the object count is unchanged |
| Mcu.UpdateAll | klippy/mcu.py:371-372 | resolving the config commands succeeds exactly when every command resolves, and then each command is replaced by its own resolution |
| Mcu.BuildConfig | klippy/mcu.py:357-376 | the config list is the object count command, then every config command with its pin names resolved, then the finalize command carrying the CRC of all lines before it joined by newlines; it fails exactly when some pin name is unknown |
| Mcu.ResolvePins | klippy/mcu.py:365-370 | without a pin_map option the MCU's own table is used, otherwise the mapped table |
| Mcu.LastTriggered | klippy/mcu.py:147-148 | the endstop counts as triggered exactly when a level was reported and it differs from the inversion flag |
| Mcu.LastPosition | klippy/mcu.py:138-142 | the reported position comes back negated for an inverted direction pin, and 0 before any report |
| Mcu.SetDigital | klippy/mcu.py:165-171 | the level sent is the value inverted for an inverted pin, scheduled no earlier than the previous message, and the clock and value are remembered |
| Mcu.SetPwm | klippy/mcu.py:174-178 | a digital output switches on for PWM values above 127 |
| Mcu.SetDigitalUndoesInversion | klippy/mcu.py:147-171 | the level driven for a value, read back through the same inversion, is that value |
| PrinterStepper.SetEnable | klippy/stepper.py:14-22 | the count moves by one in the requested direction; the pin is driven high exactly on the count's step from 0 and low exactly on its step to 0, and driving a missing pin fails |
| PrinterStepper.LookupEnablePin | klippy/stepper.py:24-33 | a stepper without an enable pin gets a private counter at 9999; steppers naming the same pin share the one counter created first at 0 |
| PrinterStepper.GetName | klippy/stepper.py:56-59 | the short name drops a leading `stepper_` and is otherwise the full name |
| PrinterStepper.MotorEnable | klippy/stepper.py:75-80 | the stepper ends in the requested state, and its shared counter is moved only when that state changes |
| PrinterStepper.MotorEnableKeepsCounted | klippy/stepper.py:14-22 | every shared pin's count stays equal to the number of its enabled steppers (private counters 9999 above theirs), and enabling or disabling never touches a missing pin |
| PrinterStepper.MotorEnableWrites | klippy/stepper.py:14-22 | a shared enable pin is driven high exactly when the first of its steppers is enabled and low exactly when the last one is disabled |
| PrinterStepper.SetupHoming | klippy/stepper.py:125-163 | phase tracking is on exactly when phases are configured and the accuracy (by default half the phases less one) is below half the phases; file output sets the accuracy to the phases |
| PrinterStepper.GetHomedOffset | klippy/stepper.py:170-187 | no offset without tracking or with the motor off; the first homing records the phase; later ones give the phase delta wrapped into the accuracy window, or an incorrect-phase error |
| PrinterStepper.HomedOffsetMeasuresDrift | klippy/stepper.py:170-187 | homing again a whole number of phase cycles away plus a drift within the accuracy reports exactly that drift |
| EndstopPhase.PhasesOf | klippy/extras/endstop_phase.py:15-25 | with a Trinamic driver the phases are four per micro-step; otherwise the `phases` option is used and must be at least one |
| EndstopPhase.Accuracy | klippy/extras/endstop_phase.py:33-45 | the accuracy defaults to half the phases less one, a value of half the phases or more is a config error, and debug output widens it to the phases |
| EndstopPhase.HomedDelta | klippy/extras/endstop_phase.py:73-80 | the offset is congruent to the phase difference modulo the phases and lies in [-accuracy, accuracy]; it is an error exactly when the wrapped difference falls strictly between accuracy and phases - accuracy |
| EndstopPhase.HomedDeltaUnique | klippy/extras/endstop_phase.py:73-80 | when the window is narrower than the phases, the offset is the one value in it congruent to the phase difference |
| EndstopPhase.PhaseOf | klippy/extras/endstop_phase.py:60-68 | the phase is the driver's reading (a failed reading is an endstop error) or the MCU step position modulo the phases |
| EndstopPhase.GetHomedOffset | klippy/extras/endstop_phase.py:59-80 | the first homing records the phase and gives no offset; later ones give the wrapped delta from the recorded phase and keep the state |
| EndstopPhase.FindRail | klippy/extras/endstop_phase.py:82-85 | the rail found is the first whose first stepper carries the name |
| EndstopPhase.HandleHomedRails | klippy/extras/endstop_phase.py:81-92 | only the first rail of this stepper moves, by the homed offset; the answer is whether it moved, and there is no answer when no rail is this stepper's |
| EndstopPhase.HandleHomedRailsLeavesOthers | klippy/extras/endstop_phase.py:81-92 | rails of other steppers keep their positions |
| Homing.PlanHome | klippy/homing.py:17-19 | homing is queued after the states already planned, always followed by a wait for its endstops |
| Homing.PlanMove | klippy/homing.py:20-21 | a move is queued after the states already planned |
| Homing.PlanAxesUpdate | klippy/homing.py:22-23 | an axis-update callback is queued after the states already planned |
| Homing.Run | klippy/homing.py:42-66 | homing adds the steppers' endstops and is never busy; waiting is busy exactly while some endstop is, and forgets the endstops once none is; a move is never busy |
| Homing.CheckBusy | klippy/homing.py:24-32 | the states left are a suffix of those planned; the check is busy exactly when states remain, and then the first of them is the busy one |
| Homing.CheckBusyIdempotent | klippy/homing.py:24-32 | checking again while nothing outside changes finds the same state and pops nothing more |
| Homing.FillCoord | klippy/homing.py:34-41 | every missing coordinate is taken from the toolhead position at the same index, given ones are kept, and a missing one beyond the toolhead's coordinates raises |
| Homing.FillCoordKeepsGiven | klippy/homing.py:34-41 | a fully given coordinate is returned unchanged |
| Homing.NewQuery | klippy/homing.py:69-77 | a query keeps the steppers that have an endstop, paired with their names up to the shorter list, and all of them start busy |
| Homing.QueryCheckBusy | klippy/homing.py:78-84 | endstops no longer busy are dropped from the front up to the first busy one; the query is busy exactly when one remains |
| Homing.Msgs | klippy/homing.py:85-91 | one `name:TRIGGERED` or `name:open` entry per queried endstop, in order |
| Homing.GetMsgSplits | klippy/homing.py:85-92 | for names without spaces the message of `GetMsg` (`get_msg`) splits on spaces back into one entry per endstop, in order |
| WebHooks.EncodeChar | klippy/webhooks.py:21-22 | a character becomes one to four bytes, one exactly for ASCII |
| WebHooks.EncodeCharRoundTrip | klippy/webhooks.py:21-22 | every character's UTF-8 bytes decode back to its code point |
| WebHooks.Byteify | klippy/webhooks.py:20-28 | unicode strings become their UTF-8 bytes, lists are converted element-wise, dicts only when not ignored, and every other value is returned unchanged |
| WebHooks.LoadsByteified | klippy/webhooks.py:30-32 | with the object hook converting every dict and a final conversion, no unicode string is left anywhere in a decoded request |
| WebHooks.ByteifyLeavesNestedDict | klippy/webhooks.py:23-27 | byteify alone does not reach a dict inside a list, which is why the decoder's object hook is needed |
| WebHooks.Get | klippy/webhooks.py:58-63 | a present argument is returned; a missing one gives the default when there is one and an Invalid Argument error otherwise |
| WebHooks.Send | klippy/webhooks.py:80-83 | the first response is stored; a second send fails and leaves it |
| WebHooks.SetError | klippy/webhooks.py:77-78 | an error replaces the response with the error dict and changes nothing else |
| WebHooks.Finish | klippy/webhooks.py:85-90 | the finished request carries the request id and the response, "ok" when nothing was sent |
| WebHooks.FinishAnswers | klippy/webhooks.py:77-90 | a handler that sends is answered with its data, an error after sending is answered with the error, a silent one with "ok", and sending twice fails |
| WebHooks.RegisterEndpoint | klippy/webhooks.py:265-268 | a path can be registered exactly when it is not registered yet |
| WebHooks.InitialEndpoints | klippy/webhooks.py:258-262 | a new server answers exactly list_endpoints, info and emergency_stop |
| WebHooks.GetCallback | klippy/webhooks.py:291-297 | a registered path finds its callback and any other path is an error |
| WebHooks.RegisterTwiceFails | klippy/webhooks.py:258-268 | registering a path already in use, list_endpoints included, is refused |
| WebHooks.ProcessReceived | klippy/webhooks.py:180-196 | empty data means the socket closed; otherwise the pending partial frame and the data are split at `\x03`, every piece but the last is a frame and the last waits for more data |
| WebHooks.ProcessReceivedChunks | klippy/webhooks.py:180-196 | data arriving in two reads gives the same frames and the same leftover as arriving in one |
| WebHooks.SendText | klippy/webhooks.py:227-228 | a message is appended to the send buffer followed by `\x03` |
| WebHooks.SendThenReceive | klippy/webhooks.py:180-196 | messages free of `\x03`, sent one after another, are received as exactly those frames with nothing left over |
| WebHooks.Diff | klippy/webhooks.py:395-400 | a one-shot query gets every requested non-callable item, a subscriber exactly those whose value read with `get` differs from last round's, so an absent item and a None item read alike; absent items are sent as None |
| WebHooks.AbsentReadsAsNone | klippy/webhooks.py:397-399 | an item that goes from absent to None, or back, is not sent to a subscriber, while one whose last value was a callable is |
| WebHooks.ObjectUpdate | klippy/webhooks.py:383-402 | an object appears in a query's answer always, and in a subscriber's update exactly when some item changed; a None subscription requests every item present |
| WebHooks.ClientUpdate | klippy/webhooks.py:381-407 | a one-shot query is answered for every object it asked for; each object's entry is that object's update |
| WebHooks.UnchangedSubscriberGetsNothing | klippy/webhooks.py:395-407 | a subscriber whose objects all report what they reported last round is sent nothing |
| WebHooks.Pending | klippy/webhooks.py:376-380 | a closed subscriber gets nothing; every other client gets its own update, if any |
| WebHooks.Updates | klippy/webhooks.py:376-407 | the updates go out in increasing client order, one for each client that has one and for no other, each that client's update |
| WebHooks.OpenIndices | klippy/webhooks.py:377-380 | the indices of the clients whose connection is open: all of them, in increasing order, and no closed one |
| WebHooks.KeepOpen | klippy/webhooks.py:377-380 | the clients kept are exactly those at the open indices, in order |
| WebHooks.FixSubscription | klippy/webhooks.py:391-394 | a subscription to all of an object's items becomes the list of items present, when there are any |
| WebHooks.SentUpdates | klippy/webhooks.py:376-407 | every one-shot query and every open subscriber with something to send is sent its own update, in client order, and no other client is sent anything |
| WebHooks.KeptClients | klippy/webhooks.py:377-394 | the open subscribers are kept in order with their subscriptions fixed, and no closed one |
| WebHooks.Remembered | klippy/webhooks.py:383-390 | the statuses of exactly the objects some served client subscribes to are remembered, each as read this round |
| WebHooks.DoQuery | klippy/webhooks.py:369-407 | one round sends each served client, one-shot queries first, exactly its own update if it has one, keeps exactly the open subscribers with fixed subscriptions, and remembers the status of exactly the subscribed objects |
| WebHooks.ProcessReceivedIsSplit | klippy/webhooks.py:180-196 | with no separator pending, the frames are every piece of the `\x03` split of pending and new data but the last, which stays pending |
| WebHooks.SendAllIsJoin | klippy/webhooks.py:227-228 | messages sent one after another leave the buffer followed by the messages joined and ended by `\x03` |
| GCode.Upper | klippy/gcode.py:88 | upper-casing keeps an argument character an argument character and leaves everything but lower-case letters alone |
| GCode.ArgText | klippy/gcode.py:87 | the text after an argument character runs up to, and not including, the next letter or `*` |
| GCode.Tokens | klippy/gcode.py:87 | the line is cut into pairs of an argument character and the text before the next one, the text before the first being dropped |
| GCode.UntokenizeTokens | klippy/gcode.py:87 | the pairs put back together give the text from the first argument character on |
| GCode.TokensUntokenize | klippy/gcode.py:87 | well-formed pairs are cut back out of their own text |
| GCode.ParamsOf | klippy/gcode.py:88-89 | the parameter names are exactly the upper-cased argument characters, and the last pair's stripped text is its value |
| GCode.ParamsOfLast | klippy/gcode.py:88-89 | a parameter's value is the stripped text of the last pair with that name |
| GCode.StripComment | klippy/gcode.py:83-85 | everything from the first `;` on is removed and a line without one is kept |
| GCode.CommandPairs | klippy/gcode.py:91-93 | a leading N line number is skipped before the command |
| GCode.ParseLine | klippy/gcode.py:80-97 | a line has no command exactly when no pair is left after the line number; the command is its first letter in its own case followed by its stripped number, and the parameters also carry the stripped line and the command |
| GCode.ParamsHaveNoComment | klippy/gcode.py:81-89 | no parameter value holds text from a comment |
| GCode.BuildHandlers | klippy/gcode.py:46-59 | the base commands are always handled and the heater and fan commands exactly when those objects exist; in shutdown only the status commands among them remain |
| GCode.OutText | klippy/gcode.py:130-142 | an acknowledgement is written as "ok" with its message if any, and a response as its text, each ending in a newline |
| GCode.Init | klippy/gcode.py:12-45 | a new parser has one empty pending line, is not busy, owes no acknowledgement, writes nothing, uses absolute coordinates and has the full handler table |
| GCode.Shutdown | klippy/gcode.py:69-71 | after shutdown only the status commands have handlers |
| GCode.Respond | klippy/gcode.py:138-142 | a response is written unless reading from a file |
| GCode.DoAck | klippy/gcode.py:130-137 | an acknowledgement is written exactly when one is owed and not reading from a file, and then none is owed |
| GCode.CmdDefault | klippy/gcode.py:202-210 | in shutdown every command is refused; a line without a command is only logged; an unknown command is echoed back; no acknowledgement is written |
| GCode.HandlerEffect | klippy/gcode.py:181-344 | G90/G91 and M82/M83 set the coordinate modes, M105 acknowledges with the temperatures, a G0/G1 move the toolhead rejects with an endstop error is answered "Error: " and the message, and homing always stalls input while the endstop query and waiting for a temperature do unless reading from a file |
| GCode.RunHandler | klippy/gcode.py:100-102 | a command goes to its registered handler, otherwise to the default handler |
| GCode.RunCommand | klippy/gcode.py:99-102 | running a command owes an acknowledgement, which only M105 gives itself, and writes nothing when reading from a file |
| GCode.AfterCommand | klippy/gcode.py:107-113 | input stalls exactly when the handler or the toolhead is busy; otherwise the command is acknowledged |
| GCode.ProcessParsed | klippy/gcode.py:80-113 | a line without a command never stalls and writes no acknowledgement; a command that does not stall has been acknowledged exactly once |
| GCode.Loop | klippy/gcode.py:77-114 | lines are handled in order up to the last, unfinished one unless a stall stops them; each command is acknowledged at most once and all but a stalled one are |
| GCode.ProcessCommands | klippy/gcode.py:77-114 | the handled lines are dropped and the rest kept; without a stall only the unfinished last line remains; nothing is written when reading from a file |
| GCode.ProcessData | klippy/gcode.py:115-128 | a read while busy is postponed until the stall ends; otherwise the data's lines, the first completing the pending partial line, are processed; a file finishes at its end |
| GCode.PendingLines | klippy/gcode.py:123-125 | the pending lines joined by newlines are the partial line followed by the data |
| GCode.EndBusy | klippy/gcode.py:148-162 | the stall ends, a failure is reported, and the stalled command is acknowledged |
| GCode.BusyHandler | klippy/gcode.py:147-169 | while busy it retries; once done the stalled command is acknowledged and the waiting lines processed, and input is read again unless that stalls again |
| GCode.InputFileIsSilent | klippy/gcode.py:115-142 | reading from a file, nothing is ever written, whatever the input |
| Uc1701.Init | klippy/extras/display/uc1701.py:33-34 | the buffer being drawn starts all zero and the sent one all `~`, so the first flush sends every byte that is not `~` |
| Uc1701.Diffs | klippy/extras/display/uc1701.py:75-76 | the diff runs are one column each, in increasing order, exactly at the columns where the page changed |
| Uc1701.Batch | klippy/extras/display/uc1701.py:78-83 | batching keeps the first and last changed column, leaves runs ordered, apart and not joinable, and still covers every changed column |
| Uc1701.PageRuns | klippy/extras/display/uc1701.py:75-83 | the batched runs of a page lie in the page and cover every changed column, and an unchanged page has none |
| Uc1701.PositionCmd | klippy/extras/display/uc1701.py:87-90 | the position command is the page address 0xB0+page and the column split into a high nibble under 0x10 and a low nibble |
| Uc1701.PositionDecodes | klippy/extras/display/uc1701.py:87-90 | the display controller reads the position command back as the same page and column |
| Uc1701.PageMsgs | klippy/extras/display/uc1701.py:71-92 | an unchanged page sends nothing |
| Uc1701.Flush | klippy/extras/display/uc1701.py:68-93 | after a flush the sent buffer equals the drawn one, and a flush with nothing changed sends nothing |
| Uc1701.FlushRebuilds | klippy/extras/display/uc1701.py:68-93 | a display controller whose RAM held what was last sent shows exactly the drawn buffer after executing what the flush sends, wherever its pointer was |
| Uc1701.SetPixel | klippy/extras/display/uc1701.py:94-102 | the pixel is lit, or turned off when exclusive and already lit, and no other pixel changes; the column and the page are Python list indices, so from -128 and from page -8 they count back from the end of the buffer, and only an index outside those ranges raises |
| Uc1701.NegativeIndexWraps | klippy/extras/display/uc1701.py:94-107 | a column 128 lower or a pixel row 64 lower names the same pixel: setting or clearing it there does exactly what it does on the screen |
| Uc1701.PixelIndexEdges | klippy/extras/display/uc1701.py:94-102 | `set_pixel(-1, 0)` lights column 127 of page 0 and `set_pixel(0, -1)` bit 7 of page 7, while column 128 or -129 and pixel row 64 or -65 raise |
| Uc1701.ClearPixel | klippy/extras/display/uc1701.py:103-107 | the pixel is turned off and no other pixel changes; its indices wrap and raise as for `set_pixel` |
| Uc1701.Clear | klippy/extras/display/uc1701.py:155-158 | every pixel of the drawn buffer is off and the sent buffer is kept |
| Uc1701.Truncate | klippy/extras/display/uc1701.py:109-110 | text is cut so that it ends at the sixteenth cell of the line, and a start beyond it draws nothing |
| Uc1701.DrawBits | klippy/extras/display/uc1701.py:124-128 | drawing one row byte changes no pixel outside the screen columns its eight column indices reach, wrapping ones included, in the pixel row its row index reaches |
| Uc1701.DrawBitsToggles | klippy/extras/display/uc1701.py:124-128 | with the whole row on screen, drawing never fails and toggles exactly the pixels of the set bits, the high bit leftmost |
| Uc1701.DrawRows | klippy/extras/display/uc1701.py:120-129 | drawing a glyph's rows changes only the drawn buffer |
| Uc1701.DrawChars | klippy/extras/display/uc1701.py:113-130 | characters with codes 0, 32 or 255 only advance, so a text of blanks draws nothing |
| Uc1701.WriteText | klippy/extras/display/uc1701.py:108-130 | text written from beyond the sixteenth cell draws nothing, and writing never touches the sent buffer |
| Uc1701.WriteTextIgnoresOverflow | klippy/extras/display/uc1701.py:108-110 | characters beyond the sixteenth cell are never drawn: the text and its cut draw alike |
| Uc1701.WriteGraphics | klippy/extras/display/uc1701.py:131-141 | a graphics row from beyond the sixteenth cell draws nothing |
| Uc1701.IconRows | klippy/extras/display/uc1701.py:146-147 | each 16-bit icon row is drawn as its high then low byte, changing only the drawn buffer |
| Uc1701.WriteGlyph | klippy/extras/display/uc1701.py:142-154 | an icon is drawn and gives 2, a text glyph is written and gives 1, and any other name draws nothing and gives 0 |
| Uc1701.DrawBytes | klippy/extras/display/uc1701.py:136-141 | drawing graphics bytes changes only the drawn buffer |
| Uc1701.FlushMsgsRebuild | klippy/extras/display/uc1701.py:70-92 | a controller whose RAM holds the pages already flushed and the rest as last sent ends, after the remaining pages' messages, holding the drawn buffer |
| AvrSim.ShlIsShift | scripts/avrsim.py:67 | the bit table is `1 << k` for every bit position of a frame |
| AvrSim.FrameBits | scripts/avrsim.py:64 | a frame is a low start bit, the eight data bits lowest first, a high stop bit and nothing above it |
| AvrSim.FrameLevels | scripts/avrsim.py:11 | a frame is ten bit periods long |
| AvrSim.TxStep | scripts/avrsim.py:57-73 | the pin is left alone exactly when between frames with nothing queued or read; a new frame takes the head of the queue, or of what was read when the queue is empty; the pin is driven to the frame's bit at the position, which advances and wraps after ten |
| AvrSim.TxRun | scripts/avrsim.py:57-73 | a run never drives more levels than it has steps |
| AvrSim.TxSendsFrame | scripts/avrsim.py:57-73 | ten steps from the start of a frame send the head of the queue as one whole frame and leave the rest queued |
| AvrSim.SetInState | scripts/avrsim.py:24-29 | the level is recorded, and a low level while waiting arms the receiver at bit zero |
| AvrSim.RxDoStep | scripts/avrsim.py:30-42 | inside a frame a sample advances the position and changes nothing besides the sampled bits (which bits those are is stated by SampleStep); the tenth sample outputs a byte and makes the receiver wait again |
| AvrSim.SampleStep | scripts/avrsim.py:31-32 | ORing the level of bit `k` of a frame into the bits sampled so far gives exactly the frame's bits below `k + 1` |
| AvrSim.RxFeed | scripts/avrsim.py:24-42 | a high level on a waiting receiver outputs nothing and changes nothing but the level |
| AvrSim.RxReadsFrame | scripts/avrsim.py:24-42 | a frame fed to an idle receiver is output as its byte and leaves the receiver idle |
| AvrSim.RxReadsFrames | scripts/avrsim.py:24-42 | back-to-back frames, with no idle time between them, are read back as the byte string |
| AvrSim.TxRxRoundTrip | scripts/avrsim.py:24-73 | a byte the transmitter shifts out comes out of an idle receiver unchanged |
| AvrSim.LoadOptions | scripts/avrsim.py:80-96 | no signal option means no trace, and `?` (around blanks) asks for the help text |
| AvrSim.LoadOptionsLines | scripts/avrsim.py:95 | the trace text has one line per comma-separated signal name, holding that name after `+ ` |
| AvrSim.LoadOptionsExample | scripts/avrsim.py:95 | the signals `a,b` give the two lines `+ a` and `+ b` |
| Fan.Init | klippy/fan.py:14-23 | the fan starts off at clock zero with the configured minimum fan time and kick-start time |
| Fan.Clamp | klippy/fan.py:27 | the value is kept within 0 to 255, unchanged inside it and pinned to the nearer end outside it |
| Fan.SetSpeed | klippy/fan.py:26-39 | an unchanged value sends nothing; otherwise the update goes no earlier than the print clock or the minimum fan time after the last one, a stopped fan going to a partial speed is first kicked at 255 for the kick-start time, and the last update sent is the new value at the fan's new clock |
| Fan.SetSpeedIdempotent | klippy/fan.py:28-29 | a second request for the same speed sends nothing |
| Fan.RunOrdered | klippy/fan.py:30-38 | with non-negative time spans, the updates of any sequence of requests go out in clock order, none before the last one already sent |
| Fan.RunLast | klippy/fan.py:37-39 | after any sequence of requests the fan's last value and clock are those of the last update sent, and the fan is unchanged when nothing was sent |
| PyHelper.GetHexAsWritten | klippy/pyhelper.c:41 | as written, digits below ten are `0`-`9` and ten to fifteen come out as `e` to `j` |
| PyHelper.GetHex | klippy/pyhelper.c:41 | the digit reads back as the nibble it was made from |
| PyHelper.GetHexAsWrittenMisreads | klippy/pyhelper.c:41 | the as-written digit of ten or eleven reads back as fourteen or fifteen, and of twelve to fifteen is no hex digit at all |
| PyHelper.Escape | klippy/pyhelper.c:50-58 | a printable byte other than the backslash is copied, any other byte becomes `\x` and its two hex digits, high nibble first, and no escape holds a NUL |
| PyHelper.EscapeAll | klippy/pyhelper.c:49-59 | the escaped text is one to four characters per byte and holds no NUL |
| PyHelper.UnescapeEscapeAll | klippy/pyhelper.c:44-62 | the escaped text reads back as the input bytes |
| PyHelper.NewlineAsWritten | klippy/pyhelper.c:41 | as written, a newline byte is escaped as `\x0e`, which reads back as byte 14 |
| PyHelper.EscapeAsWrittenAgrees | klippy/pyhelper.c:51-58 | the source's escape of a byte and the corrected one have the same length, and are equal exactly when the byte is copied as it is or both of its nibbles are below ten |
| PyHelper.Consumed | klippy/pyhelper.c:47-49 | the loop stops at the end of the input or once the output reaches the buffer size less five |
| PyHelper.DumpString | klippy/pyhelper.c:44-62 | the output is the escaping of the input prefix the loop gets through, then one NUL; it never exceeds the buffer |
| PyHelper.ConsumedMonotone | klippy/pyhelper.c:47-49 | a larger buffer consumes at least as much input |
| PyHelper.EscapeAllPrefix | klippy/pyhelper.c:49-59 | escaping a shorter prefix gives a prefix of the longer escaping, so truncation only cuts the text at the end |
| BuildCommands.TypeNames | scripts/buildcommands.py:38 | the type tuple names each parameter type in order |
| BuildCommands.Intern | scripts/buildcommands.py:39-44 | a type tuple already in the table keeps its id; a new one is appended and gets the next id; either way the id names the tuple |
| BuildCommands.InternKeepsIds | scripts/buildcommands.py:39-44 | interning keeps the table free of duplicates and never renumbers a tuple already in it |
| BuildCommands.ParamDecls | scripts/buildcommands.py:78-87 | the parameter table is listed by id, each tuple at its own id |
| BuildCommands.ParamDeclsSorted | scripts/buildcommands.py:78-87 | the listing is in increasing id order, agrees with the id dictionary, and holds every tuple of it |
| BuildCommands.BuildParser | scripts/buildcommands.py:30-59 | the `#empty` message gets an empty encoder and touches no table; otherwise the encoder carries the message id, the parameter count, the output comment prefix, the interned parameter tuple (none without parameters), and the argument count for a command or the bounded size for a response |
| BuildCommands.NumArgsIsArgWords | scripts/buildcommands.py:52-53 | a command's argument count is one word per parameter and one more for each buffer |
| BuildCommands.BuildParsers | scripts/buildcommands.py:61-76 | building the response encoders fails exactly when some message has no id; otherwise there is one encoder per declaration, the i-th being that declaration's output or message format (with its id) encoded against the final type table, and the type table only grows |
| BuildCommands.Rest | scripts/buildcommands.py:246 | the message after the first words is a suffix of the request that does not start with white space |
| BuildCommands.StripQuotes | scripts/buildcommands.py:268-269 | a value in double quotes loses them and any other value is kept |
| BuildCommands.StripQuotesQuoted | scripts/buildcommands.py:268-269 | quoting a value and stripping the quotes gives it back |
| BuildCommands.Request | scripts/buildcommands.py:234-274 | a blank request changes nothing, an unknown keyword is an error, and an accepted request never changes a constant, message or command already declared |
| BuildCommands.DeclParser | scripts/buildcommands.py:251-260 | a message with no name is `#empty`; a different message under a known name is an error and otherwise the message is named and its parser queued |
| BuildCommands.DeclCommand | scripts/buildcommands.py:241-250 | fewer than three operands, a second command for a name, or a different message under a known name is an error; otherwise the command is recorded in order and its message named |
| BuildCommands.DeclConstant | scripts/buildcommands.py:265-272 | exactly two operands are needed; the value loses blanks and quotes; a different value for a known name is an error, and otherwise the constant is set |
| BuildCommands.DeclConstantTwice | scripts/buildcommands.py:270-272 | the same constant with the same value again changes nothing |
| BuildCommands.Requests | scripts/buildcommands.py:234-274 | the declarations read so far stay consistent: every command in order once, with a message |
| BuildCommands.UnknownKeywordFails | scripts/buildcommands.py:273-274 | a request with an unknown keyword anywhere stops the whole run with an error |
| BuildCommands.DefaultIds | scripts/buildcommands.py:277 | every default message's id is one the protocol gives it |
| BuildCommands.DefaultIdsInjective | scripts/buildcommands.py:277 | with distinct default ids, no two default messages share an id |
| BuildCommands.DefaultIdsBelow | scripts/buildcommands.py:276-277 | no default id exceeds the highest default id |
| BuildCommands.Assign | scripts/buildcommands.py:278-282 | numbering keeps every id already given, gives each new message the next id in turn, keeps ids distinct, and numbers every listed message |
| BuildCommands.MessageIds | scripts/buildcommands.py:276-282 | message ids extend the defaults with consecutive ids above the highest default, stay distinct, and number every command's and parser's message |
| BuildCommands.CmdById | scripts/buildcommands.py:287-288 | every command is found under the id of its message, and each id holds a command whose message has that id |
| BuildCommands.CmdIds | scripts/buildcommands.py:287-288 | the command ids are those of the commands' messages, in declaration order |
| BuildCommands.BuildCommandTable | scripts/buildcommands.py:89-122 | the command index fails exactly when there are no commands; it runs up to the highest command id, holds a parser exactly at each command's id with its function and flags, ends with one, and only extends the type table |
| BuildCommands.CommandIdsBelow | scripts/buildcommands.py:90 | the index size is one past the highest command id, which holds a command |
| BuildCommands.NoMissingMessage | scripts/buildcommands.py:98-99 | every command in the index has a named message, so the lookup at line 99 never fails |
| BuildCommands.IndexCovers | scripts/buildcommands.py:94-102 | every declared command has a parser in the index at its message's id |
| BuildCommands.Build | scripts/buildcommands.py:224-290 | a successful run gives distinct message ids that keep every default id, and lists the parameter tuples by consecutive ids from zero |
| BuildCommands.BuildParsersKeepsDistinct | scripts/buildcommands.py:61-70 | building the response encoders never enters a type tuple twice |

## Left out

- Hardware access, interrupts and concurrency. The firmware model is sequential: interrupt-disabled sections and the retries around a race (the AVR ADC conversion-done poll, the UART interrupt re-enable) are single steps. Register writes are fields or logs of the hardware records.
- Memory allocation failures (`malloc` returning NULL in the host C code and the firmware's `alloc_chunk` shutdowns). Allocation always succeeds here.
- Floating point. This covers:
  - the fan's `int(value*255. + 0.5)` quantisation and its print-time to clock conversion;
  - the serial reader's and clock sync's clock-rate estimates;
  - the stepper step distance and endstop alignment in millimetres;
  - G-code motion arguments (`G1`, `G92`, `M206`).
  All of these arrive as integers or are left out.
- Text and byte formats computed elsewhere: JSON encoding and decoding, the zlib CRC of the config, the identify dictionary's compression and the C source text that the command generator prints. These are parameters, or the model stops at the tables they are printed from.
- The message-protocol module (klippy/msgproto.py). It is not part of this model. Its size limits, default messages and parameter types are inputs to `BuildCommands`.
- The reactor, sockets, threads and the serial port on the host. The webhooks `_do_send` retry loop, the query timer, the info handler and the G-code helper endpoints are left out. The serial reader's background thread and the MCU config-retry loop around `get_config` are left out too.
- Python 2 dictionary iteration order. The command generator numbers commands in declaration order. The source uses `commands.keys()`, whose order is unspecified, so the model fixes one order.
- The firmware's `start_group`/`end_group` commands, the debug peek and poke commands and `get_status`/`get_uptime`. None of them holds logic beyond a register access or a message.
- The PRU console, the PRU core-to-core transport, and the board and linker files. These are hardware glue.
- The simulator's nanosecond clock. `AvrSim` steps once per bit period. The receiver's one-and-a-half-period first delay only moves its sampling point to the middle of each bit.
- The UC1701 SPI transfer, the `a0` pin and the controller's initialisation command bytes. The font and icon tables are parameters.
- Stepper.Stop: the model frees the moves and resets the stepper, but its `sched_del_timer` is stated in `Sched` and not composed with the stepper's state.
- StepCompress.CompressBisectAdd: the C code's `int32_t` arithmetic in the search is modelled with unbounded integers. The fit of each step is promised only for a move whose interval is in range: a bound rounded by the truncating division can miss its step, and `check_line` then counts the move as out of range. That each tried run is the longest one for its add is not stated. `push_factor`/`push_sqrt` helpers of the step generator are not part of this model.
- GCode.HandlerEffect: handler exceptions (`force_shutdown` with "Internal error") are not modelled. Temperature and position reports are text supplied by the `World` parameter. The G1 position bookkeeping (`last_position`, and its reset from the toolhead after a rejected move) is floating point and left out.
- Homing.Run: the toolhead moves and `set_position` calls are not modelled. The coordinates are carried through unchanged rather than filled from the toolhead.
- PrinterStepper.SetupHoming: the phase accuracy arrives already converted from its float configuration value. With file output and no tracking the accuracy is 0 where the source has `None`. `endstop_align_zero` is left out.
- EndstopPhase.PhasesOf: a Trinamic driver reporting zero micro-steps is a configuration error here. The source accepts it and would fail later on a modulo by zero.
- BuildCommands.Rest: only states that the message text after the leading words is a suffix of the request with no leading white space. It does not state that it equals Python's `split(None, 3)[3]` character for character.
- ClockSync.HandleStatus: modelled up to the decision to run the frequency estimate. The estimate itself is floating point.
- SerialHdl.HandleStatus: the clock-rate estimate `est_clock` is left out. Only the 64-bit extension is modelled.
- SerialHdl.RetrySendEvent: reactor times are floating-point seconds in the source; the model counts integer milliseconds, so `RETRY_TIME` is 500.
- Pins.BoardAliases: the source writes each alias straight into the MCU's shared pin table, so a `KeyError` partway through leaves the aliases added before it in that table; the model returns only the error and drops them.
- Pins.MapPins: for the same reason, a failed `arduino` mapping leaves the shared tables unchanged in the model, while the source keeps the aliases added before the `KeyError`.
- Mcu.BuildConfig: the CRC is a parameter function, and the send of the config commands is returned as a list.
- WebHooks.Byteify: JSON values are a datatype, so the UTF-8 conversion is stated on code points rather than on Python 2 unicode objects.
- AvrGpio.OutSetup: a pin on the port one past `digital_regs` is rejected with "Not an output pin". The `>` test at src/avr/gpio.c:124 lets it through and then reads the entry past the table, whose content is not part of this model. PortCheckOffByOne exhibits such a pin.
- AvrGpio.InSetup: uses the same corrected bound in place of the `>` test at src/avr/gpio.c:155.
- StepCompress.CheckExpand: compacts or grows on the corrected condition of `ExpandQueue`. Where the source's condition compacts although the pending and the new entries do not fit, the source then writes past the array (ExpandQueueOverrun). That overrun is not modelled.
- StepCompress.Push: queues through the corrected CheckExpand, so it never writes past the array.
- StepCompress.FlushMove: takes the move's duration from the exact `FlushTicks`. The source's `int` product overflows from 46342 steps on (FlushTicksOverflow), and FlushTicksAgree shows that the two agree below that.
- StepCompress.Flush: flushes each move through the corrected FlushMove.
- StepCompress.Reset: flushes through the corrected FlushMove before clearing the queue.
- StepCompress.QueueMsg: flushes through the corrected FlushMove before queueing the message.
- StepperSync.SyncFlush: flushes each stepper's queue through the corrected StepCompress.Flush.
- PyHelper.Escape: writes the corrected digits `a` to `f`, where the source writes `e` to `j` (EscapeAsWritten, NewlineAsWritten). EscapeAsWrittenAgrees states the difference: the same length, and different exactly when a nibble is ten or more.
- PyHelper.EscapeAll: escapes each byte with the corrected Escape.
- PyHelper.DumpString: escapes with the corrected digits. By EscapeAsWrittenAgrees the source consumes the same input and writes the same number of characters. Only the hex digits of nibbles from ten to fifteen differ.

## Findings

| source | as written | input that shows it | evidently intended | confidence | as-written member | corrected member |
|---|---|---|---|---|---|---|
| klippy/pyhelper.c:41 | `GETHEX(x)` gives `'e' + x - 10` for x of 10 to 15, so the digits are `e` to `j` | byte 10 (newline) is written as `\x0e`, which reads back as byte 14 | `'a' + x - 10`, the hex digits `a` to `f` | high; not executed | PyHelper.GetHexAsWritten, PyHelper.GetHexAsWrittenMisreads, PyHelper.NewlineAsWritten | PyHelper.GetHex, PyHelper.UnescapeEscapeAll |
| src/avr/gpio.c:124 | `GPIO2PORT(pin) > ARRAY_SIZE(digital_regs)` (here and again at line 155) admits the port equal to the table size | pin 32 on a part with four ports (A to D) passes the check and indexes one past `digital_regs` | `>=`, so that only ports in the table pass | high; not executed | AvrGpio.PortCheckOffByOne | AvrGpio.PortCheckSound |
| klippy/stepcompress.c:62 | `expand_queue` only compacts when `count` alone fits the array, ignoring the entries still pending | allocation 1024, pending entries 0 to 1000, 100 requested: it compacts, and 76 of the 100 writes land past the end | compact only when pending entries plus `count` fit, else grow | high; not executed | StepCompress.ExpandQueueAsWritten, StepCompress.ExpandQueueOverrun | StepCompress.ExpandQueue |
| klippy/stepcompress.c:344 | `move.count*(move.count-1)/2` is computed in `int` and overflows | a move of 46342 steps with add 1 gives a duration that is off by 2^31 ticks | compute the product unsigned or in 64 bits, so it stays exact for every count below 65536 | medium (counts that large are rare); not executed | StepCompress.FlushTicksOverflow | StepCompress.FlushTicks, StepCompress.FlushTicksAgree |
