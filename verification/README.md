# A verified model of the door panel firmware

The repository holds the firmware of a door panel: a card reader sends tag codes over a serial line, a host
computer receives them over USB and answers with one-byte commands, and the panel drives the two relays of an
electric lock, watches a door sensor and locks again by itself. The firmware stands on the LUFA USB library. This
project models the firmware and the parts of the library that carry protocols of their own.

| module | what it is about |
|---|---|
| `RingBuffer` | the byte ring buffer, as a value and as a class over the caller's array |
| `RingConcurrency` | one inserting and one removing thread, interleaved at single memory accesses |
| `LineFramer` | the line framer that collects the card reader's bytes in a fixed buffer |
| `TagReports` | the text the panel sends to the host for each line, and reading it back |
| `DoorMachine` | the lock controller as a machine of single statements, with timer interrupts between any two of them |
| `DoorSafety` | what holds in every run of that machine: relays, reader, timing, commands |
| `DoorHistory` | the records of that machine told from the steps of the run alone |
| `DoorPanel` | the firmware's own functions and loops, each statement proved to be a step of that machine |
| `PanelReports` | the lock controller and the card reader together: when the host gets a tag |
| `ConfigDescriptors` | the walker over USB configuration descriptors (section 9.5 of the USB 2.0 specification) |
| `StandardRequests` | the handler of USB standard requests (section 9.4 of the USB 2.0 specification) |
| `TwiMaster` | two-wire bus transfers as a master, against any bus and any slave |
| `BaudRate` | the divisor of the serial port |
| `Bytes`, `Sequences` | shared types, and facts about concatenation |

Three kinds of members recur. A *class* mirrors the C code, statement by statement, loops included. Its methods
are proved against *specification functions* on values. *Lemmas* say what those functions mean, in terms that
do not mention how they are computed: a list search, a run of bytes between newlines, the last command that a
host remembers, a bound on a time. They give the constants of the firmware and of the protocols as numbers, so the
names in the specification functions are not taken on trust.

The machines (`RingConcurrency`, `DoorMachine`) are deterministic in a step and arbitrary in the sequence of
steps: `Exec(start, steps)` for all `steps` is every run. In `RingConcurrency` a step that its thread cannot take
leaves the world as it is, so runs of any schedule are covered. The fields `room` and `stock` count the calls that
the last IsFull, GetFreeCount, IsEmpty or GetCount entitles a thread to; a thread that calls only so far
is what the header asks for. In `DoorMachine` a tick is one timer interrupt, and `clock.slowest` is the length, in
ticks, of the longest turn of the main loop so far: the B of the bounds. `TurnsFit` says that 10000 + 2B is
below 2^16.

Hardware and surroundings are parameters: the bytes from the host and the reader, the sensor, the descriptor table,
what the class driver and the configuration event do (`Firmware`), SETUP packets (`ReceiveSetup`), and the replies
of the two-wire bus (`Bus`, a function from the number of the operation to its delay, status and data byte).

## Where the code and its documentation differ

The model follows the code.

- `RingBuffer.h` (179-190) calls the free count of a concurrent buffer a maximum. For the thread that inserts it is a
  minimum: the other thread can only make more room (`SampledCountsAreSafe`, `CachedFreeCountLasts`).
- `main.c` (149-155) says the framer reads until the buffer is full. It starts again at the front instead and
  keeps the end of the run, the last ((n - 1) mod 127) + 1 bytes, and the length that decides is that of a C string.
  So runs that are no tag codes can be reported as tags: exactly when what is left is ten bytes without NUL, or
  more with the first NUL right behind ten bytes (`RunsThatPassForTags`). A run of n bytes without NUL passes exactly
  when n mod 127 is 10 (`LongRunsCanPassForTags`), and a run that fits the buffer can pass if it holds a NUL
  (`RunsPassThatAreNoTags`). The branch for a stored newline byte (165-169) is dead (`StoredNewlineIsNeverFound`).
- The timer of `main.c` has 16 bits. The timeout check looks at the ticks since doorOpen modulo 2^16
  (`TimeoutCheckLocksIff`), so the bounds on waiting need turns that are short enough (`TurnsFit`); after a turn that is
  too long the timeout can be missed (`LongTurnHidesTheTimeout`).
- Periodic closing (86-89) is described in `main.h` as applying to all states but UNLOCKED; the code does it in IDLE
  only. As VERIFYING is never reached the two agree.
- Section 9.4.7 of the USB 2.0 specification returns a device to the address state on SetConfiguration(0). The
  handler (`DeviceStandardReq.c` 196-203) leaves a device that has an address in the configured state.
- After an accepted SetConfiguration the endpoint selected on return is the one that the firmware's event left selected,
  and so it is after the class driver (`ControlEndpointIsSelectedIff`, `SetConfigurationMayLeaveAnotherEndpoint`).
  The library's task restores the selection afterwards (`DeviceTask`).
- A class driver that does not take a request but leaves another endpoint selected hides the SETUP packet from the
  library, which then leaves the request unanswered (`StalledIffRefused`).
- Section 9.3.5 of the USB 2.0 specification limits an answer to the length the host asked for. GetDescriptor keeps
  to it; GetStatus and GetConfiguration do not look at the length (`AnswerFitsLengthIff`, `GetConfigurationIgnoresLength`).
- Section 9.4.6 of the USB 2.0 specification wants the device to keep its address until the status stage of SetAddress
  is over. Storing an address (`Device_AVR8.h` 210-214) leaves the enable bit alone, so once an address has been
  enabled a different one takes effect at once (`AddressWaitsForStatusStageIff`, `SecondAddressTakesEffectAtOnce`).
- Setting or clearing a feature of an endpoint is acknowledged without effect when the feature is not the halt or the
  endpoint is not enabled (`AnswerChangesOnlyThatEndpoint`).
- A capture of the two-wire bus that uses up the last unit of the budget is reported as a timeout (`CapturedIff` has a
  strict bound). A write goes on with the data after the internal address was refused, and a read
  forgets that it was refused (`WritePacket`, `ReadPacket`).
- The baud macro is documented to give the closest register value. It gives the closest product; the rate is the closest
  one exactly under the condition of `RateIsNearestIff`.

## Model

| member | source | states |
|---|---|---|
| `RingConcurrency.EveryInterleavingIsFifo` | panelMcuCode/LUFA/Drivers/Misc/RingBuffer.h:210-286 | for one inserting and one removing thread, interleaved at single memory accesses in any way, the bytes read are a prefix of the bytes inserted, and never more than Size are waiting |
| `RingConcurrency.NoUnreadByteIsOverwritten` | panelMcuCode/LUFA/Drivers/Misc/RingBuffer.h:238-256 | every store is inside the storage and to a slot that holds no unread byte |
| `RingConcurrency.NoRemoveUnderflows` | panelMcuCode/LUFA/Drivers/Misc/RingBuffer.h:268-286 | every load is inside the storage and takes the oldest unread byte, which exists |
| `RingConcurrency.SampledCountsAreSafe` | panelMcuCode/LUFA/Drivers/Misc/RingBuffer.h:151-195 | a count sampled by the consumer is at most what is there to read, a free count sampled by the producer at most the room there is |
| `RingConcurrency.TestsTellWhatThereIs` | panelMcuCode/LUFA/Drivers/Misc/RingBuffer.h:166-227 | IsFull entitles to an Insert exactly when fewer bytes than the size take up a place, IsEmpty to a Remove exactly when a finished byte is there; the counts tell how many |
| `RingConcurrency.CachedCountLasts` | panelMcuCode/LUFA/Drivers/Misc/RingBuffer.h:151-178 | a count n cached by the consumer serves exactly the next n Removes, whatever the producer does meanwhile |
| `RingConcurrency.CachedFreeCountLasts` | panelMcuCode/LUFA/Drivers/Misc/RingBuffer.h:179-195 | a free count m cached by the producer serves exactly the next m Inserts, whatever the consumer does meanwhile |
| `RingConcurrency.QuietBufferHoldsTheUnreadBytes` | panelMcuCode/LUFA/Drivers/Misc/RingBuffer.h:110-118 | whenever both threads are outside their calls the structure is a well-formed sequential buffer, and inserted = received + contents |
| `RingConcurrency.UndisturbedInsertIsSequential` | panelMcuCode/LUFA/Drivers/Misc/RingBuffer.h:238-256 | the micro-steps of one Insert without interruption make up the sequential Insert |
| `RingConcurrency.UndisturbedRemoveIsSequential` | panelMcuCode/LUFA/Drivers/Misc/RingBuffer.h:268-286 | the micro-steps of one Remove without interruption make up the sequential Remove |
| `RingConcurrency.TwoProducersLoseAByte` | panelMcuCode/LUFA/Drivers/Misc/RingBuffer.h:231-233 | why the header allows one inserting thread only: a concrete interleaving of two Inserts that loses a byte |
| `RingConcurrency.StepKeepsInv` | panelMcuCode/LUFA/Drivers/Misc/RingBuffer.h:238-286 | each single memory access of either thread keeps the invariant of pointers, count, histories and slots |
| `RingConcurrency.RunKeepsInv` | panelMcuCode/LUFA/Drivers/Misc/RingBuffer.h:210-286 | the invariant holds after any run from any state that satisfies it |
| `RingBuffer.InsertAppendsIffNotFull` | panelMcuCode/LUFA/Drivers/Misc/RingBuffer.h:238-256 | Insert keeps the structure well formed if and only if it was not full, and then appends |
| `RingBuffer.RemoveTakesOldestIffNotEmpty` | panelMcuCode/LUFA/Drivers/Misc/RingBuffer.h:268-286 | Remove keeps the structure well formed if and only if it was not empty, and then takes the oldest byte |
| `RingBuffer.Contents` | panelMcuCode/LUFA/Drivers/Misc/RingBuffer.h:110-118 | the waiting bytes, read round the storage from Out |
| `RingBuffer.RingBuffer.InitBuffer` | panelMcuCode/LUFA/Drivers/Misc/RingBuffer.h:129-149 | an empty, valid buffer over storage supplied by the caller |
| `RingBuffer.RingBuffer.GetCount` | panelMcuCode/LUFA/Drivers/Misc/RingBuffer.h:166-178 | the number of bytes waiting |
| `RingBuffer.RingBuffer.GetFreeCount` | panelMcuCode/LUFA/Drivers/Misc/RingBuffer.h:192-195 | with the bytes waiting it adds up to the size |
| `RingBuffer.RingBuffer.IsEmpty` | panelMcuCode/LUFA/Drivers/Misc/RingBuffer.h:210-213 | true exactly when nothing is waiting |
| `RingBuffer.RingBuffer.IsFull` | panelMcuCode/LUFA/Drivers/Misc/RingBuffer.h:224-227 | true exactly when Size bytes are waiting |
| `RingBuffer.RingBuffer.Insert` | panelMcuCode/LUFA/Drivers/Misc/RingBuffer.h:238-256 | in place: appends when there was room; what it does when there was none; nothing beyond the storage handed over is touched |
| `RingBuffer.RingBuffer.Remove` | panelMcuCode/LUFA/Drivers/Misc/RingBuffer.h:268-286 | in place: returns and drops the oldest byte; what it does on an empty buffer |
| `RingBuffer.RingBuffer.Peek` | panelMcuCode/LUFA/Drivers/Misc/RingBuffer.h:294-298 | the oldest byte, left in place |
| `LineFramer.FramerEmitsTheEndOfEachRun` | panelMcuCode/main.c:156-184 | for any stream and any buffer of two bytes or more: one line per non-empty run, in order, and of a run of n bytes exactly the last ((n-1) mod (size-1)) + 1 |
| `LineFramer.StoredNewlineIsNeverFound` | panelMcuCode/main.c:165-169 | the branch that drops a stored newline byte is never taken |
| `LineFramer.RunsHoldNoNewline` | panelMcuCode/main.c:149-155 | the reference: runs are non-empty and free of newline bytes |
| `LineFramer.ByteEndsLineIff` | panelMcuCode/main.c:158-174 | a byte ends a line exactly when it is 13 or 10 and data is held |
| `LineFramer.FramingComposes` | panelMcuCode/main.c:156-184 | a stream cut where the framer is empty is framed piece by piece |
| `LineFramer.FramingRestartsAfterNewline` | panelMcuCode/main.c:156-184 | framing of xs, newline, ys is the framing of xs, newline followed by that of ys |
| `LineFramer.TerminatorCompletesOnce` | panelMcuCode/main.c:158-174 | any non-empty mix of CR and LF completes a line exactly once |
| `LineFramer.WrittenLinesComeBack` | panelMcuCode/main.c:156-184 | round trip: any lines that fit, with any terminators, come back exactly |
| `LineFramer.KeptLength` | panelMcuCode/main.c:176-180 | how much of a run survives: nothing only of an empty run, always less than the buffer |
| `LineFramer.CharBuffer.InitBuffer` | panelMcuCode/main.c:142-146 | an empty buffer of the firmware's size that starts with NUL |
| `LineFramer.CharBuffer.ReadOrDumpBuffer` | panelMcuCode/main.c:156-184 | in place, one byte: returns whether a line is complete, the exact new buffer contents, position in bounds, and agreement with the whole-stream framer |
| `TagReports.HostReadsOneReportPerRun` | panelMcuCode/main.c:119-132 | the host, cutting the output at CR LF, reads exactly one report per non-empty run; a tag exactly when the panel was idle at the end of the run and the C string was ten bytes |
| `TagReports.ReportsReadBack` | panelMcuCode/main.c:124-130 | parse-back: the output text determines the list of reports |
| `TagReports.RunsThatPassForTags` | panelMcuCode/main.c:119-132 | for any run: it passes for a tag if and only if what is left of it in the buffer is ten bytes without NUL, or more with the first NUL right behind ten bytes; the tag is those ten |
| `TagReports.LongRunsCanPassForTags` | panelMcuCode/main.c:119-132 | in particular a run of n bytes without NUL passes for a tag if and only if n mod 127 = 10 |
| `TagReports.RunsPassThatAreNoTags` | panelMcuCode/main.c:119-132 | a run of 137 bytes, and one of 20 with a NUL, that are both reported as tags of ten |
| `TagReports.CLength` | panelMcuCode/main.c:124 | strlen: the bytes before the first NUL |
| `TagReports.CLengthIs` | panelMcuCode/main.c:124 | nothing else is the length of that C string |
| `TagReports.OutputGrows` | panelMcuCode/main.c:119-132 | what one more byte adds to the output: the report of the line it completes, or nothing |
| `TagReports.ReportsInAscii` | panelMcuCode/main.c:124-130 | the text of a report, letter by letter |
| `TagReports.ServeByte` | panelMcuCode/main.c:121-131 | one byte: frames it and returns the text that the output of the whole stream grows by |
| `TagReports.WriteReport` | panelMcuCode/main.c:124-130 | the text of the report of the line in the buffer |
| `TagReports.StringLength` | panelMcuCode/main.c:124 | strlen as a loop |
| `DoorSafety.RunKeepsInv` | panelMcuCode/main.c:57-137 | the invariant of ports, state, clock and turn holds after every run, with interrupts between any two statements |
| `DoorSafety.RelaysAreSafe` | panelMcuCode/main.c:241-268 | never both relays driven, none outside doorOpen/doorClose; VERIFYING never entered; sense pull-up and foreign pins untouched |
| `DoorSafety.ReaderIsDisabledWhileUnlocked` | panelMcuCode/main.c:241-268 | between operations the reader-disable pin is high if and only if the state is UNLOCKED |
| `DoorSafety.LedShowsTheDoor` | panelMcuCode/main.c:79-84 | the LED is on if and only if the door is sensed open |
| `DoorSafety.TimerHoldsTheTicks` | panelMcuCode/main.c:303-306 | the 16-bit timer is the ticks since its last reset modulo 2^16, and exactly those while turns are short enough |
| `DoorSafety.UnlockedTimeIsBounded` | panelMcuCode/main.c:98-101 | bounded relock: never 8000 + 2B ticks unlocked after the last doorOpen |
| `DoorSafety.ResetsAreBounded` | panelMcuCode/main.c:86-89 | heartbeat: the timer is reset at least every 10000 + 2B ticks |
| `DoorSafety.TimeoutsAreNeverEarly` | panelMcuCode/main.c:86-101 | whatever the turns: no timeout before 8000 ticks and no periodic close before 10000 |
| `DoorSafety.UnlockedTimerWasResetByOpening` | panelMcuCode/main.c:241-246 | while unlocked, the last timer reset was doorOpen's |
| `DoorSafety.TimeoutCheckLocksIff` | panelMcuCode/main.c:98-101 | the exact condition, wrap-around included, on which the timeout check locks |
| `DoorSafety.PeriodicCheckLocksIff` | panelMcuCode/main.c:86-89 | the exact condition, wrap-around included, on which the periodic check closes |
| `DoorSafety.ChecksAreNeverEarly` | panelMcuCode/main.c:86-101 | a timeout locks at least 8000 ticks after doorOpen and the periodic check at least 10000 after the last reset, whatever the turns |
| `DoorSafety.LongTurnHidesTheTimeout` | panelMcuCode/main.c:67-101 | a run in which a turn of 2^16 ticks follows doorOpen and all checks of the next turn pass over the unlocked panel: the bounds need short turns |
| `DoorSafety.ChecksLockOnceAndForAReason` | panelMcuCode/main.c:86-101 | the checks of a turn lock at most once; a door seen to close while unlocked locks, and only that locks for this reason |
| `DoorSafety.CommandsDecideTheState` | panelMcuCode/main.c:103-117 | after any commands the last D or d decides the state; the pulses are the lock of the checks, if any, then one per D or d, in order |
| `DoorSafety.LastDoorByteDecides` | panelMcuCode/main.c:106-115 | the last D (68) or d (100) decides: unlocked or idle |
| `DoorSafety.NoDoorByteChangesNothing` | panelMcuCode/main.c:106-115 | commands without D and d change nothing and give no pulse |
| `DoorSafety.PulsesFollowDoorBytes` | panelMcuCode/main.c:106-115 | the pulses are those of the Ds and ds, in order: opening for D, closing for d |
| `DoorSafety.LockPulsesAre` | panelMcuCode/main.c:86-101 | each lock that the checks decide on is one closing pulse |
| `DoorSafety.PulsesAreRisingEdges` | panelMcuCode/main.c:241-268 | in every run the pulses on record are the rising edges of pins 5 (open) and 4 (close) |
| `DoorSafety.StatementsOfDoorOpen` | panelMcuCode/main.c:241-253 | what each statement of doorOpen leaves in state, timer and port |
| `DoorSafety.StatementsOfDoorClose` | panelMcuCode/main.c:256-268 | what each statement of doorClose leaves, and where it returns to |
| `DoorHistory.ClockTellsTheHistory` | panelMcuCode/main.c:303-306 | the ticks, the last reset, the last opening and the longest turn on record are those of the steps of the run |
| `DoorHistory.CardsTellTheHistory` | panelMcuCode/main.c:119-132 | the card bytes on record are those the run took, with the state and pin 7 at that moment |
| `DoorHistory.DecisionsOfStep` | panelMcuCode/main.c:86-101 | a decision is on record for each check that calls doorClose, with the ticks since the last reset |
| `DoorMachine.StepKeepsPorts` | panelMcuCode/main.c:241-268 | every statement and every interrupt keeps the relation between ports, state and program point |
| `DoorMachine.StepKeepsTime` | panelMcuCode/main.c:67-117 | every statement and every interrupt keeps the bounds on waiting times |
| `DoorMachine.StepKeepsTurn` | panelMcuCode/main.c:67-117 | every statement keeps the account of a turn: locks, commands, pulses and state |
| `DoorMachine.StepKeepsCards` | panelMcuCode/main.c:119-132 | a card byte is taken while idle if and only if it is taken while the reader is enabled |
| `DoorMachine.TimerTellsTheWait` | panelMcuCode/main.c:86-101 | while turns are short enough the timer has not wrapped |
| `DoorPanel.Panel.SetupHardware` | panelMcuCode/main.c:187-220 | the set-up pins and zeroed variables are the start of a run |
| `DoorPanel.Panel.TimerInterrupt` | panelMcuCode/main.c:303-306 | the interrupt routine is one tick of the run |
| `DoorPanel.Panel.ShiftSense` | panelMcuCode/main.c:69 | the statement is a step of the machine |
| `DoorPanel.Panel.SampleSense` | panelMcuCode/main.c:70-78 | likewise |
| `DoorPanel.Panel.ShowSense` | panelMcuCode/main.c:79-84 | likewise |
| `DoorPanel.Panel.Check` | panelMcuCode/main.c:86-101 | each of the three checks calls doorClose exactly when its condition holds: idle and one close pulse then, nothing otherwise |
| `DoorPanel.Panel.DoorOpen` | panelMcuCode/main.c:241-253 | every statement of doorOpen is a step of the machine; it ends unlocked after one open pulse |
| `DoorPanel.Panel.DoorClose` | panelMcuCode/main.c:256-268 | every statement of doorClose is a step of the machine; it ends idle after one close pulse |
| `DoorPanel.Panel.ProcessCommand` | panelMcuCode/main.c:106-115 | one byte: what it does to the state and which pulse it gives |
| `DoorPanel.Panel.ProcessCommands` | panelMcuCode/main.c:103-117 | the loop over a batch: the last D or d decides, pulses in order |
| `DoorPanel.Panel.SenseAndCheck` | panelMcuCode/main.c:68-101 | an open-to-closed door while unlocked is locked before commands are read |
| `DoorPanel.Panel.ReadCards` | panelMcuCode/main.c:119-132 | the loop over the waiting bytes: what is written is what the output of all bytes so far grows by |
| `DoorPanel.Panel.TakeTurn` | panelMcuCode/main.c:67-137 | one whole turn, any input: the safety properties at the loop top, and the text written |
| `DoorPanel.Panel.RunTurns` | panelMcuCode/main.c:57-137 | the main program for any number of turns: code and machine agree, so every theorem about runs is one about the code, and all that is written is the output for the card bytes given, in order |
| `PanelReports.TagsAreReadWhileTheReaderIsOn` | panelMcuCode/main.c:67-132 | in every run of the panel the host reads one report per run of bytes from the reader, and a tag if and only if the reader is enabled as the run ends and ten bytes are left as a C string |
| `ConfigDescriptors.SearchIsListSearch` | hwTestCode/LUFA/Drivers/USB/Core/ConfigDescriptors.c:74-85 | on well-formed descriptors a search by type is the search of the parsed list for the next match, none skipped |
| `ConfigDescriptors.BeforeIsListSearch` | hwTestCode/LUFA/Drivers/USB/Core/ConfigDescriptors.c:87-106 | the Before search succeeds if and only if the first of the two types in the rest of the list is the wanted one |
| `ConfigDescriptors.AfterIsListSearch` | hwTestCode/LUFA/Drivers/USB/Core/ConfigDescriptors.c:108-117 | the After search sees the other type first, and then finds the next wanted one in the list |
| `ConfigDescriptors.PaddingDoesNotMatter` | hwTestCode/LUFA/Drivers/USB/Core/ConfigDescriptors.c:74-85 | the bytes past the end, which the loop still reads, do not change the result of a search by type |
| `ConfigDescriptors.PaddingDoesNotMatterBeforeOrAfter` | hwTestCode/LUFA/Drivers/USB/Core/ConfigDescriptors.c:87-117 | nor those of the Before and After searches |
| `ConfigDescriptors.ParsedBytesAreTheBytes` | hwTestCode/LUFA/Drivers/USB/Core/ConfigDescriptors.h:267-277 | parsing loses nothing: the parsed descriptors laid end to end are the bytes |
| `ConfigDescriptors.ParseGivesTheDescriptorsBack` | hwTestCode/LUFA/Drivers/USB/Core/ConfigDescriptors.h:267-277 | and it is the inverse of laying well-formed descriptors end to end |
| `ConfigDescriptors.FoundIsTheFirstMatch` | hwTestCode/LUFA/Drivers/USB/Core/ConfigDescriptors.c:74-85 | on any walkable bytes: the first visited match, or the end if and only if there is none |
| `ConfigDescriptors.SearchedIsTheFirstAnswer` | hwTestCode/LUFA/Drivers/USB/Core/ConfigDescriptors.c:119-145 | the comparator search ends at the first answer; after a failure the walk from the restored cursor starts with that very descriptor |
| `ConfigDescriptors.Walk` | hwTestCode/LUFA/Drivers/USB/Core/ConfigDescriptors.h:267-277 | every visit stays in the buffer and conserves offset plus bytes remaining; the walk ends with nothing remaining |
| `ConfigDescriptors.OneStepOfTheWalk` | hwTestCode/LUFA/Drivers/USB/Core/ConfigDescriptors.h:267-277 | a descriptor that does not fit what remains ends the walk, any other is stepped over by its size |
| `ConfigDescriptors.Found` | hwTestCode/LUFA/Drivers/USB/Core/ConfigDescriptors.c:74-85 | a search conserves offset plus bytes remaining |
| `ConfigDescriptors.Searched` | hwTestCode/LUFA/Drivers/USB/Core/ConfigDescriptors.c:119-145 | a comparator search conserves offset plus bytes remaining on every exit |
| `ConfigDescriptors.LaterOf` | hwTestCode/LUFA/Drivers/USB/Core/ConfigDescriptors.h:169-210 | the reference: the place of the first later descriptor of the wanted types |
| `ConfigDescriptors.Walker.GetNextDescriptor` | hwTestCode/LUFA/Drivers/USB/Core/ConfigDescriptors.h:267-277 | the clamped cursor step, in place |
| `ConfigDescriptors.Walker.GetNextDescriptorOfType` | hwTestCode/LUFA/Drivers/USB/Core/ConfigDescriptors.c:74-85 | the loop ends where the search by type does |
| `ConfigDescriptors.Walker.GetNextDescriptorOfTypeBefore` | hwTestCode/LUFA/Drivers/USB/Core/ConfigDescriptors.c:87-106 | the loop stops at the first of the two types and reports the end if it is the wrong one |
| `ConfigDescriptors.Walker.GetNextDescriptorOfTypeAfter` | hwTestCode/LUFA/Drivers/USB/Core/ConfigDescriptors.c:108-117 | two searches one after the other; the second only when the first succeeds |
| `ConfigDescriptors.Walker.GetNextDescriptorComp` | hwTestCode/LUFA/Drivers/USB/Core/ConfigDescriptors.c:119-145 | the loop with rollback returns the code and the cursor of the search |
| `StandardRequests.GetRequestsAnswerTheLastSetRequests` | hwTestCode/LUFA/Drivers/USB/Core/DeviceStandardReq.c:142-216 | over any sequence of requests: GetConfiguration and GetStatus answer with what the last accepted set-requests asked for, and the configuration number is one that exists |
| `StandardRequests.StateIsWhatTheHostRemembers` | hwTestCode/LUFA/Drivers/USB/Core/DeviceStandardReq.c:49-123 | after any session every variable, the device state and every endpoint are what a host that keeps the last accepted set-requests in mind expects |
| `StandardRequests.AnswerChangesOnlyWhatIsAsked` | hwTestCode/LUFA/Drivers/USB/Core/DeviceStandardReq.c:125-206 | one request changes exactly the variable it asks for and nothing else |
| `StandardRequests.AnswerChangesOnlyThatEndpoint` | hwTestCode/LUFA/Drivers/USB/Core/DeviceStandardReq.c:327-377 | one request changes exactly the endpoint it asks for: halted, or no longer halted, emptied and back at DATA0 |
| `StandardRequests.StalledIffRefused` | hwTestCode/LUFA/Drivers/USB/Core/DeviceStandardReq.c:62-123 | exactly the unknown requests and those that ask for what does not exist are stalled, and change nothing; exactly those that the class driver hides by selecting another endpoint stay unanswered; requests to the host change nothing, requests to the device are answered without data |
| `StandardRequests.ControlEndpointIsSelectedIff` | hwTestCode/LUFA/Drivers/USB/Core/DeviceStandardReq.c:49-123 | when the control endpoint is selected again on return: unless the class driver or the event of an accepted SetConfiguration has left another one selected |
| `StandardRequests.SetConfigurationMayLeaveAnotherEndpoint` | hwTestCode/LUFA/Drivers/USB/Core/DeviceStandardReq.c:142-206 | an accepted SetConfiguration after which another endpoint is selected |
| `StandardRequests.LastConfigurationIsBounded` | hwTestCode/LUFA/Drivers/USB/Core/DeviceStandardReq.c:144-145 | the configuration number never exceeds FIXED_NUM_CONFIGURATIONS |
| `StandardRequests.TranscriptResolvesOnce` | hwTestCode/LUFA/Drivers/USB/Core/DeviceStandardReq.c:49-123 | the events of one reply hold one clearing of the SETUP packet and behind it one resolution, or neither when the request stays unanswered |
| `StandardRequests.SessionResolvesEachRequestOnce` | hwTestCode/LUFA/Drivers/USB/Core/DeviceStandardReq.c:49-123 | in any session as many SETUP packets are cleared as requests are answered, and each clearing is followed by exactly one resolution, that of its own request, before the next |
| `StandardRequests.AddressWaitsForStatusStageIff` | hwTestCode/LUFA/Drivers/USB/Core/DeviceStandardReq.c:125-140 | the old address stays in force up to and with the status stage if and only if no address was enabled before or the new one is the old one; otherwise the new one is in force before the SETUP packet is cleared |
| `StandardRequests.EventsAccountForTheRegister` | hwTestCode/LUFA/Drivers/USB/Core/AVR8/Device_AVR8.h:210-222 | in any session the writes among the events give the address register of the device |
| `StandardRequests.SecondAddressTakesEffectAtOnce` | hwTestCode/LUFA/Drivers/USB/Core/DeviceStandardReq.c:125-140 | a session of two SetAddress requests in which the second status stage already runs under the new address |
| `StandardRequests.AnswerFitsLengthIff` | hwTestCode/LUFA/Drivers/USB/Core/DeviceStandardReq.c:208-325 | an answer is no longer than the host asked for if and only if it is not one of GetStatus for fewer than two bytes or of GetConfiguration for none |
| `StandardRequests.GetConfigurationIgnoresLength` | hwTestCode/LUFA/Drivers/USB/Core/DeviceStandardReq.c:208-216 | a request for no bytes that is answered with one |
| `StandardRequests.HeaderRoundTrip` | hwTestCode/LUFA/Drivers/USB/Core/DeviceStandardReq.c:51-62 | the eight header bytes and the request structure determine each other |
| `StandardRequests.HeaderInBytes` | hwTestCode/LUFA/Drivers/USB/Core/DeviceStandardReq.c:51-62 | which byte of the header is which; the words are little-endian |
| `StandardRequests.HaltInBytes` | hwTestCode/LUFA/Drivers/USB/Core/DeviceStandardReq.c:341-376 | the feature requests of an endpoint, byte by byte: halted; or no longer halted, emptied and back at DATA0; acknowledged without effect; refused |
| `StandardRequests.RemoteWakeupInBytes` | hwTestCode/LUFA/Drivers/USB/Core/DeviceStandardReq.c:329-338 | the feature requests of the device, byte by byte |
| `StandardRequests.GetDescriptorInBytes` | hwTestCode/LUFA/Drivers/USB/Core/DeviceStandardReq.c:239-286 | GetDescriptor answers with the front of the descriptor, as much as was asked for; 0x3DC is the serial number |
| `StandardRequests.SetConfigurationInBytes` | hwTestCode/LUFA/Drivers/USB/Core/DeviceStandardReq.c:142-206 | numbers 0 and 1 are accepted; the state and endpoints afterwards |
| `StandardRequests.SetAddressInBytes` | hwTestCode/LUFA/Drivers/USB/Core/DeviceStandardReq.c:125-140 | the seven address bits and the state afterwards |
| `StandardRequests.GetRequestsInBytes` | hwTestCode/LUFA/Drivers/USB/Core/DeviceStandardReq.c:208-325 | the bytes of the answers to GetStatus and GetConfiguration |
| `StandardRequests.ClassDriverGoesFirst` | hwTestCode/LUFA/Drivers/USB/Core/DeviceStandardReq.c:64-66 | what the class driver does comes before the answer and stays |
| `StandardRequests.StatusTellsTheLastHaltRequest` | hwTestCode/LUFA/Drivers/USB/Core/DeviceStandardReq.c:305-316 | in any session GetStatus reports a halt exactly when the last halt request for the enabled endpoint was a SetFeature |
| `StandardRequests.TranscriptCarriesTheAnswer` | hwTestCode/LUFA/Drivers/USB/Core/DeviceStandardReq.c:266-286 | the data is sent once, between the clearing of the SETUP packet and the status stage |
| `StandardRequests.Device.ProcessControlRequest` | hwTestCode/LUFA/Drivers/USB/Core/DeviceStandardReq.c:49-123 | for any header bytes and any class driver, which may take the request, change endpoints and select any: the state, what is shown on the bus, and the endpoint selected; the SETUP packet stays pending only if the driver hides it |
| `StandardRequests.Device.Dispatch` | hwTestCode/LUFA/Drivers/USB/Core/DeviceStandardReq.c:66-114 | each request goes to its handler by code, direction and recipient |
| `StandardRequests.Device.ReadHeader` | hwTestCode/LUFA/Drivers/USB/Core/DeviceStandardReq.c:51-62 | the loop reads the eight bytes of the header |
| `StandardRequests.Device.SetAddress` | hwTestCode/LUFA/Drivers/USB/Core/DeviceStandardReq.c:125-140 | stores the address, acknowledges, and enables the address after the status stage; Addressed or Default |
| `StandardRequests.Device.SetDeviceAddress` | hwTestCode/LUFA/Drivers/USB/Core/AVR8/Device_AVR8.h:210-214 | writes the address and leaves alone whether it is enabled |
| `StandardRequests.Device.SetConfiguration` | hwTestCode/LUFA/Drivers/USB/Core/DeviceStandardReq.c:142-206 | refuses numbers that do not exist, otherwise configures |
| `StandardRequests.Device.GetConfiguration` | hwTestCode/LUFA/Drivers/USB/Core/DeviceStandardReq.c:208-216 | answers with the current number |
| `StandardRequests.Device.GetDescriptor` | hwTestCode/LUFA/Drivers/USB/Core/DeviceStandardReq.c:239-286 | answers with the descriptor or the internal serial number, or leaves the request to be stalled |
| `StandardRequests.Device.WriteControlStream` | hwTestCode/LUFA/Drivers/USB/Core/AVR8/Template/Template_Endpoint_Control_W.c:34-45 | sends no more than the host asked for |
| `StandardRequests.Device.GetStatus` | hwTestCode/LUFA/Drivers/USB/Core/DeviceStandardReq.c:288-325 | self-powered and remote-wakeup bits, or the halt of an endpoint; selects the control endpoint again |
| `StandardRequests.Device.ClearSetFeature` | hwTestCode/LUFA/Drivers/USB/Core/DeviceStandardReq.c:327-377 | remote wakeup and the halt of enabled endpoints; refuses the rest |
| `StandardRequests.Device.ChangeHalt` | hwTestCode/LUFA/Drivers/USB/Core/DeviceStandardReq.c:349-363 | halts that endpoint if it is enabled, or ends its halt, empties it and resets its data toggle |
| `StandardRequests.Device.SelectEndpoint` | hwTestCode/LUFA/Drivers/USB/Core/AVR8/Endpoint_AVR8.h:266-272 | the endpoint operations work on the selected endpoint |
| `StandardRequests.Device.ClearSETUP` | hwTestCode/LUFA/Drivers/USB/Core/AVR8/Endpoint_AVR8.h:441-447 | clears the SETUP flag of the control endpoint only |
| `StandardRequests.Device.StallTransaction` | hwTestCode/LUFA/Drivers/USB/Core/AVR8/Endpoint_AVR8.h:488-492 | stalls the selected endpoint only |
| `StandardRequests.Device.ResetEndpoint` | hwTestCode/LUFA/Drivers/USB/Core/AVR8/Endpoint_AVR8.h:279-284 | empties the bank of the endpoint named, selected or not |
| `StandardRequests.Device.ResetDataToggle` | hwTestCode/LUFA/Drivers/USB/Core/AVR8/Endpoint_AVR8.h:517-521 | the selected endpoint goes on with DATA0 |
| `StandardRequests.Device.DeviceTask` | hwTestCode/LUFA/Drivers/USB/Core/USBTask.c:61-74 | serves a SETUP packet if there is one and the device is attached, and restores the selected endpoint |
| `StandardRequests.Device.Serve` | hwTestCode/LUFA/Drivers/USB/Core/USBTask.c:61-74 | a whole session, stalls included: the device ends in the state, and has shown the bus what, the meaning of the requests says |
| `TwiMaster.WriteSucceedsIff` | hwTestCode/LUFA/Drivers/Peripheral/AVR8/TWI_AVR8.c:173-207 | against any slave: NoError if and only if the start succeeded and every byte was acknowledged; the bus then carried internal address and data in order, and one stop, at the end |
| `TwiMaster.AddressInBits` | hwTestCode/LUFA/Drivers/Peripheral/AVR8/TWI_AVR8.h:145-155 | the address byte has the seven bits of the device and is even for writing, odd for reading |
| `TwiMaster.WriteAddressesForWriting` | hwTestCode/LUFA/Drivers/Peripheral/AVR8/TWI_AVR8.c:182-183 | every write that addresses a slave addresses that device, for writing |
| `TwiMaster.ReadAddressesForWriting` | hwTestCode/LUFA/Drivers/Peripheral/AVR8/TWI_AVR8.c:142-143 | every read that addresses a slave addresses that device for writing first |
| `TwiMaster.ReadThenAddressesForReading` | hwTestCode/LUFA/Drivers/Peripheral/AVR8/TWI_AVR8.c:145-155 | and for reading then, refused internal address or not |
| `TwiMaster.WriteSendsBothParts` | hwTestCode/LUFA/Drivers/Peripheral/AVR8/TWI_AVR8.c:185-203 | a write sends both parts, each up to its first refused byte, and a stop |
| `TwiMaster.ReadSucceedsIff` | hwTestCode/LUFA/Drivers/Peripheral/AVR8/TWI_AVR8.c:133-171 | NoError if and only if both starts succeeded and every byte came well; all bytes are stored in order and only the last is not acknowledged |
| `TwiMaster.ReadStopsOnce` | hwTestCode/LUFA/Drivers/Peripheral/AVR8/TWI_AVR8.c:133-171 | a successful read carries one stop, at the end |
| `TwiMaster.StartSucceedsIff` | hwTestCode/LUFA/Drivers/Peripheral/AVR8/TWI_AVR8.c:37-103 | NoError if and only if the bus was captured within the budget and the address acknowledged within the budget |
| `TwiMaster.CapturedIff` | hwTestCode/LUFA/Drivers/Peripheral/AVR8/TWI_AVR8.c:47-75 | the capture loop succeeds exactly with a START after lost arbitrations only, the delays leaving more than one unit of the budget |
| `TwiMaster.FaultyIff` | hwTestCode/LUFA/Drivers/Peripheral/AVR8/TWI_AVR8.c:52-64 | a bus fault exactly when the first operation that does not lose the arbitration ends in time and is no START |
| `TwiMaster.OutOfTimeIff` | hwTestCode/LUFA/Drivers/Peripheral/AVR8/TWI_AVR8.c:47-75 | a capture timeout exactly when the delays of lost arbitrations and of one operation more use up the budget |
| `TwiMaster.StartFailsIff` | hwTestCode/LUFA/Drivers/Peripheral/AVR8/TWI_AVR8.c:37-103 | the exact condition of each error code |
| `TwiMaster.CommandsOfStart` | hwTestCode/LUFA/Drivers/Peripheral/AVR8/TWI_AVR8.c:37-103 | some STARTs and the address, a stop behind it if it is not acknowledged; or the release of the bus |
| `TwiMaster.NothingIsSentWithoutTheBus` | hwTestCode/LUFA/Drivers/Peripheral/AVR8/TWI_AVR8.c:60-75 | the address is sent exactly when the bus was captured |
| `TwiMaster.StatusesInBytes` | hwTestCode/LUFA/Drivers/Peripheral/AVR8/TWI_AVR8.c:52-58 | the status values, in the upper five bits |
| `TwiMaster.CaptureIsNotBefore` | hwTestCode/LUFA/Drivers/Peripheral/AVR8/TWI_AVR8.c:42-75 | a capture is never decided before the first START |
| `TwiMaster.EndingLossesAreFair` | hwTestCode/LUFA/Drivers/Peripheral/AVR8/TWI_AVR8.c:47-69 | every capture ends if from some operation on no arbitration is lost |
| `TwiMaster.SlowLossesAreFair` | hwTestCode/LUFA/Drivers/Peripheral/AVR8/TWI_AVR8.c:47-69 | and if lost arbitrations take some time, even when they never end |
| `TwiMaster.FastLossesAreNotFair` | hwTestCode/LUFA/Drivers/Peripheral/AVR8/TWI_AVR8.c:58-60 | but not if all are lost for ever without delay |
| `TwiMaster.PayloadSucceedsIff` | hwTestCode/LUFA/Drivers/Peripheral/AVR8/TWI_AVR8.c:185-201 | the payload is all acknowledged if and only if no byte is refused; both parts have then been sent whole |
| `TwiMaster.SendingStopsAtFirstNak` | hwTestCode/LUFA/Drivers/Peripheral/AVR8/TWI_AVR8.c:185-201 | a sending loop stops after the first byte that is not acknowledged and not before |
| `TwiMaster.ReceivingStopsAtFirstFault` | hwTestCode/LUFA/Drivers/Peripheral/AVR8/TWI_AVR8.c:157-164 | the receiving loop stops after the first byte that goes wrong and not before |
| `TwiMaster.SendsAt` | hwTestCode/LUFA/Drivers/Peripheral/AVR8/TWI_AVR8.c:185-201 | the i-th command is the i-th byte |
| `TwiMaster.StoredInFront` | hwTestCode/LUFA/Drivers/Peripheral/AVR8/TWI_AVR8.c:157-164 | the bytes fill the front of the buffer and the rest stays |
| `TwiMaster.DataSucceedsIff` | hwTestCode/LUFA/Drivers/Peripheral/AVR8/TWI_AVR8.c:154-167 | the same for the second half of a read |
| `TwiMaster.Master.StartTransmission` | hwTestCode/LUFA/Drivers/Peripheral/AVR8/TWI_AVR8.c:37-103 | terminates on every fair bus, gives the commands and the code of the specification, and waits at most 100 TimeoutMS units in each phase |
| `TwiMaster.Master.Capture` | hwTestCode/LUFA/Drivers/Peripheral/AVR8/TWI_AVR8.c:47-69 | the polling loop, with the measure (operations until the capture is settled, budget) |
| `TwiMaster.Master.AwaitAddress` | hwTestCode/LUFA/Drivers/Peripheral/AVR8/TWI_AVR8.c:77-91 | the second phase: an answer within the budget or not |
| `TwiMaster.Master.StopTransmission` | hwTestCode/LUFA/Drivers/Peripheral/AVR8/TWI_AVR8.h:224-228 | one stop, not waited for |
| `TwiMaster.Master.SendByte` | hwTestCode/LUFA/Drivers/Peripheral/AVR8/TWI_AVR8.c:105-112 | true exactly when the byte was acknowledged |
| `TwiMaster.Master.ReceiveByte` | hwTestCode/LUFA/Drivers/Peripheral/AVR8/TWI_AVR8.c:114-131 | stores the byte; true exactly when the status is the one expected |
| `TwiMaster.Master.SendBytes` | hwTestCode/LUFA/Drivers/Peripheral/AVR8/TWI_AVR8.c:185-201 | the sending loops of both packets |
| `TwiMaster.Master.ReceiveBytes` | hwTestCode/LUFA/Drivers/Peripheral/AVR8/TWI_AVR8.c:157-164 | the receiving loop, in place in the caller's buffer |
| `TwiMaster.Master.ReadData` | hwTestCode/LUFA/Drivers/Peripheral/AVR8/TWI_AVR8.c:154-167 | second start, data, stop |
| `TwiMaster.Master.ReadPacket` | hwTestCode/LUFA/Drivers/Peripheral/AVR8/TWI_AVR8.c:133-171 | the whole read |
| `TwiMaster.Master.WritePacket` | hwTestCode/LUFA/Drivers/Peripheral/AVR8/TWI_AVR8.c:173-207 | the whole write |
| `BaudRate.DivisorIsNearest` | hwTestCode/LUFA/Drivers/Peripheral/AVR8/Serial_AVR8.h:103-119 | no 32-bit overflow; the underflow condition; otherwise (UBRR+1)*Baud is within Baud/2 of the prescaled clock and no register value gives a nearer product |
| `BaudRate.RateIsNearestIff` | hwTestCode/LUFA/Drivers/Peripheral/AVR8/Serial_AVR8.h:103-119 | the exact condition on which the chosen divisor is also the one with the nearest rate |
| `BaudRate.NearestDivisorMayMissTheNearestRate` | hwTestCode/LUFA/Drivers/Peripheral/AVR8/Serial_AVR8.h:103-110 | at 16 MHz and 700000 baud it is not |
| `BaudRate.SerialPort.SetBaudRate` | hwTestCode/LUFA/Drivers/Peripheral/AVR8/Serial_AVR8.h:176-179 | the 16-bit register keeps the value exactly when it is below 2^16 |

## Left out

- The copies under `hwTestCode` of files that are also under `panelMcuCode`: the same code, modelled once.
- USB and CDC internals, bus reset, and a SETUP packet that arrives in the middle of a handler.
- Packets, zero-length packets and aborts of the data stage of a control request.
- A class driver that stalls the control endpoint itself, or handles a request and leaves its SETUP packet pending.
- Real milliseconds: the unit is the tick. `_delay_ms` is some number of ticks, so the length of a relay pulse is not modelled.
- Torn accesses to the 16-bit timer: each access is one step.
- The strings that `fputs` writes are bytes here; USB may drop them when the host is away, which is not modelled.
- Framer buffers of fewer than two bytes: the firmware's buffer has 128, and with one the terminating NUL would fall outside.
- Descriptors of size zero: the walker would not terminate, so the walk requires sizes of one or more (`Walkable`).
- The comparator's answer for the place past the end, which it is shown when no descriptor is left: any answer is allowed.
- The header `util/twi.h` of the AVR C library, which defines the two-wire status values, is not part of this model; the values are those of the microcontroller.
- Two-wire operations that never complete once the address was sent: the delays of the bus are finite, and the byte waits have no timeout.
- Arbitrations that are lost for ever and so quickly that they never use up the budget: the capture would not end (`Fair`).
- Ring buffers of more than 65535 bytes: the size is a 16-bit value.
- Clock, ADC, SPI and timer set-up, temperature tables, bit reversal, LEDs, watchdog, descriptor tables, board headers and scripts: constants, register writes or small finite tables.
