# Verification of the command station's state machines

A Dafny model of the parts of the DCC-EX command station that decide what goes on the rails and into
decoders: the service-mode interpreter and its programs, the EXRAIL compiler and interpreter, the packet
queues, the loco table with its consists, the throttle and reminder logic, the two signal generators, the
ring buffer, the command splitter and the overload back-off. Hardware, clocks and other modules appear as
inputs: every theorem holds for all of their answers. `dafny verify dfyconfig.toml` checks everything.

Where the source changes fields, lists or arrays in place, so does the model: `Manager`, `Rmft2`, `Exrail`,
`Scheduler`, `DCCQueue`, `Table`, `Dcc`, `FunctionSlot`, `RingStream`, `DCCWaveform`, `RMTChannel` and
`MotorDriver` are classes whose methods are proved to do what a function on values says, and the laws are
proved about runs of those functions. Integer widths are written out: 8-, 16- and 32-bit wrap-around is
in the functions of `Bytes` and in explicit remainders.

## Areas

- **Service mode** (`AckVm`, `AckLogic`, `AckPower`, `AckPrograms`, `AckBlocks`, `Decoder`, `LocoAddress`,
  `ServiceMode`, `AckManager`). One step is one opcode that sees arbitrary delays, overloads, acks and times.
  `Surely(code, regs, world, post)` says that whatever a decoder may answer, the values called back satisfy
  `post`; `CallsBackOnly` carries that over to whole runs with retries and power waits. A *truthful* decoder
  does what it is told and acks exactly the verifies that are right; its acks to writes are arbitrary. An
  untruthful one answers as it likes. The decoder reads packets by the Direct mode section (E) of
  NMRA S-9.2.3.
- **EXRAIL** (`ExrailScript`, `ExrailVm`, `ExrailTimer`, `ExrailCompiler`, `ExrailTask`, `ExrailFlags`,
  `ExrailSections`, `ExrailRing`).
  A script file is what is in front of its first routine, and its routines, each of which falls through into the
  next one. Its statements IF, ELSE, CALL, FOLLOW and RETURN have a structured meaning of their own; the macros'
  route code, run by `loop2`, is proved to have that meaning from every statement at the top of the file.
  FOLLOW makes endless loops, so the statement is about the first n FOLLOWs, for every n.
- **Packet queues** (`PacketQueue`, `PacketRules`, `PacketScheduler`, `DccPackets`, `EstopLock`). The union
  of `DCCQueue.h` is one 32-bit word whose low half is `locoId`, so the aliasing of `delayOff` and
  `startTime` with `locoId` is in the model.
- **Locos** (`Lists`, `LocoTable`, `DCCConsist`, `LocoThrottle`, `ReminderRounds`, `Momentum`, `LocoFunctions`).
- **Signals** (`DccSignal`, `Waveform`, `WaveformRuns`, `Rmt`, `RmtHandshake`, `RmtReceiver`). A receiver that knows only
  section A of NMRA S-9.2 reads the pin. Interrupts may come between any two statements of
  the main loop's `schedulePacket` and `RMTfillData`.
- **Others** (`RingBuffer`, `CommandSplitter`, `Overload`, `Bytes`).

## What turned out not to hold

- A waiting gate-off can also stand in front of an older speed packet of the loco whose id it looks like. The next
  speed request then overwrites the gate-off, and the older speed can be sent after the new one
  (`PacketRules.OlderSpeedComesLast`). `OlderSpeedIsSent` gives the exact condition; otherwise an older speed is
  never sent again.
- A waiting gate-off is found by a later speed packet whose loco id equals the low 16 bits of its start time,
  and is overwritten: the turnout coil stays on (`PacketRules.GateOffIsLost`). `SpeedSparesGateOff` gives the
  exact condition.
- The same aliasing lets one moving speed packet out of the queues under the emergency stop lock
  (`EstopLock.LockLeaks`). `LockLeaksExactly` says exactly when, for dequeues in the order of time, and
  `BootedLockHolds` that from boot on nothing moves if no speed packet has found a gate-off in its place.
- The comment at `DCCQueue.cpp:137` expects a later emergency stop to remove earlier ones of the same loco. Their
  slots carry loco id 0, so it removes them if and only if it is for all locos (`PacketRules.EarlierStopsStay`).
  Two stops of one loco wait one behind the other (`TwoStopsOfOneLoco`), n of them n deep (`StopsOfOneLoco`);
  `StopsPileUp` counts them for every run of requests.
- `RESERVE` of a section id of 256 or more never excludes anything (`ExrailFlags.WhichSectionsExclude`);
  `EXRAILAsserts.h:138` keeps such ids out of scripts.
- `DCCConsist::parse` writes through null if and only if it accepts its parameters and the new consist needs more
  slots than the table may have (`DCCConsist.Parse`); `TwoLocosInOneSlot` is such a call.
- The "lost data" branch of `RMTinterrupt` is reached if and only if a packet had 255 repeats, because the repeat
  counter wraps to 0 (`RmtHandshake.AcceptedIsShown`); the packet is then sent once only. `LostDataIsReached` is
  a run that gets there.
- The `int16_t` delay of a reminder is the time elapsed if and only if that is below 32.768 s
  (`Momentum.WhenDue`). Two reminders of the same loco, one of which is so late that it does nothing, are in
  `LateReminderIsLost`.
- A command of numbers, keywords and quoted strings is written behind the end of the result array if and only if one
  of its strings, which take two cells each, begins when exactly nine cells are taken
  (`CommandSplitter.CommandOverflows`). `FifthStringOverflows` is such a command with six parameters.
- A ramp passes the speed codes 1 and 129, which are emergency stops on the rails. A reminder orders one if and only
  if the notches due bring the ramp exactly there, or nothing is due and it stands there
  (`Momentum.StopIsOnTheWay`, `LocoThrottle.ReminderIsStop`). A standing loco that accelerates is told to stop
  (`AcceleratingStops`), and a ramp that goes notch by notch cannot avoid it (`NoWayRound`).
- A loco that faces the other way in its consist has the speed of the consist in its slot, and its own as the target.
  Once the consist is dissolved, its next reminder starts from the former: it is told to go on in its direction if
  and only if more notches are due than its speed (`LocoThrottle.OutOfConsist`). `Momentum.WrongWay` is a loco that
  runs in reverse at 20 and is told to go forward at 15.
- `pausingTask` outlives its task: if the task that paused all others ends, no task is ever served again until a
  command resumes (`ExrailRing.FrozenForGood`), and no other end does that (`EndFreezes`).
- The comment at `EXRAIL2.cpp:66` has `loop` serve the next task each time. When a task ends, the one behind it is
  passed over once (`ExrailRing.EndSkipsOne`).
- `DELAY(ms)` waits for its time if and only if that is below 3276800 ms (`ExrailTimer.DelayIsMeant`); an hour
  becomes more than 49 days (`DelayOfAnHour`), because operands are signed.
- `AFTER` is to wait until a sensor has been off for some time. It does from the first look on that finds the sensor
  on (`ExrailTimer.AfterSeesSensor`, `AfterIsLeft`); if none does, the time runs from whatever the word was used for
  before, and may be over at once (`AfterIsSkipped`).
- The comment at `DCC.cpp:329-332` has F29 to F31 changed by function buttons. The code above it returns for all
  functions above F28, so the frequency bits are always those of the last `setDCFreq` (`LocoFunctions.FrequencyStays`).

## Model

| member | source | states |
|---|---|---|
| AckLogic.CallsBackOnly | DCCACK.cpp:166-459 | in any run with any delays, retries and power waits, the user callback is made at most once and only with a value that the program promises for the decoder's memory at that moment |
| AckLogic.RunsEnd | DCCACK.cpp:166-459 | for a well-formed program: the pointer stays in it, there are at most `ackRetry` new attempts, the number of moves is bounded by a measure fixed at the start, and a run that makes them all has called back exactly once |
| AckLogic.CallIsStable | DCCACK.cpp:235-371 | running the last opcode again while the power wait lasts finds the same value (COMBINE1920 included) |
| AckLogic.DecodeKeepsWellFormed | DCCACK.cpp:166-376 | from a well-formed program each opcode, skips included, leads to a strictly shorter well-formed rest |
| AckLogic.PacketsWaitForResets | DCCACK.cpp:180-224 | a packet goes out at the first turn at which the resets before it have been seen, and not before |
| AckLogic.BaselineAndAckWait | DCCACK.cpp:174-233 | an attempt begins at the first turn without overload that has seen the resets; an ack is taken at the first turn at which there is one or none will come |
| AckLogic.OnePacketForEachReset | DCCACK.cpp:131-224 | in any run every packet is sent at a turn of its own that has seen the resets |
| AckLogic.FailureIsRetried | DCCACK.cpp:378-387 | a failed attempt with retries left starts again from the beginning and calls nobody |
| AckLogic.FailureIsFinal | DCCACK.cpp:378-459 | over any run, -1 is called back only when all retries have been used |
| AckPower.PowerRules | DCCACK.cpp:378-459 | the two rules of the comment at lines 390-391: power is not switched off within 100 ms of a write of the attempt, and is off at least 30 ms before it comes on again; at the end both power and join are as `Setup` found them, on or off, and power has been switched off once if it was off before, off and on once if the track is to be joined, and else never |
| AckPrograms.ShippedProgramsAreWellFormed | DCC.cpp:619-981 | every ack program that is shipped is well formed: skips have targets, operands are present, none runs off its end |
| AckBlocks.PacketsMeanWhatTheySay | DCC.cpp:1334-1341 | the byte packets that `cv1` and `cv2` build are decoded as the same request on the same CV, if and only if it is one of 1 to 1024 |
| AckBlocks.BitPacketsMeanWhatTheySay | DCCACK.cpp:180-224 | the bit packets are decoded as the write or verify of the intended bit |
| AckBlocks.RunsReadByte | DCC.cpp:694-715 | eight bit verifies merged, and a byte verify, find the stored byte of a truthful decoder |
| ServiceMode.Delivers | DCCACK.cpp:166-459 | a program that surely calls back one value on one memory has done so when the run has ended, after any waits and retries |
| ServiceMode.LocoIdRoundTrip | DCC.cpp:1055-1070 | for every id 1 to 10239, any earlier CV memory and any acks to writes: setting it calls back 1, and reading it afterwards gives a result that `callback_Rloco` prints as that id |
| ServiceMode.ConsistIdRoundTrip | DCC.cpp:1072-1093 | for every id 0 to 10239 and either direction: whenever setting it calls back 1, reading calls back exactly that id, and bit 7 of CV 19 says the direction |
| ServiceMode.SetLocoIdRuns | DCC.cpp:916-981 | 1 is called back, and CVs 1, 17, 18, 19 and 29 encode the address, all others being untouched |
| ServiceMode.GetLocoIdRuns | DCC.cpp:815-863 | on every memory, the value called back is the own address that CVs 29, 17, 18 and 1 encode, and the memory is untouched |
| ServiceMode.AddressIsPrinted | DCCEXParser.cpp:1697-1707 | what `callback_Rloco` prints for it, on every memory: the number of a long address and that it is one if it should be short, the number of a short one, and no address if CV 1 is 0 or above 127 or CV 17 is 64 to 191 |
| ServiceMode.SetConsistIdRuns | DCC.cpp:938-950 | either 1 is called back and CVs 20 and 19 hold the decimal split and the direction bit, all others being untouched, or -4 and then the id was a long one |
| ServiceMode.GetConsistIdRuns | DCC.cpp:865-914 | on every memory, the value called back is the consist address of CVs 20 and 19, or their defined failures |
| ServiceMode.GetDriveawayLocoIdRuns | DCC.cpp:717-813 | on every memory, the consist address if there is one and else the own address |
| ServiceMode.ReadCvSound | DCC.cpp:694-715 | with any decoder whatever: a value other than -1 is the byte of the last verify packet sent, for the requested CV, and that was acked |
| ServiceMode.SilenceFailsFast | DCC.cpp:694-715 | if nobody answers, each attempt to read a CV sends two packets, not nine, and a failure is called back |
| ServiceMode.ReadCvRuns | DCC.cpp:1027-1032 | a truthful decoder's stored byte is delivered, never a failure |
| ServiceMode.VerifyCvRuns | DCC.cpp:1003-1008 | verifying a byte calls back the stored byte, whether or not it is the expected one, and changes nothing |
| ServiceMode.ExpectedIsAskedFirst | DCC.cpp:659-664 | with any decoder, the first packet of a verify asks for the expected value |
| ServiceMode.VerifyBitRuns | DCC.cpp:1010-1016 | verifying a bit against 0 or 1 calls back what it is, and changes nothing; bit numbers above 7 are refused |
| ServiceMode.ReadBitRuns | DCC.cpp:1019-1024 | so does reading it |
| ServiceMode.WriteBitRuns | DCC.cpp:995-1001 | 1 is called back and that bit alone has changed |
| ServiceMode.WriteCvRuns | DCC.cpp:983-993 | 1 is called back and that CV alone has changed, to the written value |
| ServiceMode.ShippedProgramsEnd | DCC.cpp:619-981 | any shipped program with any decoder: bounded moves, at most `ackRetry` retries, one callback |
| LocoAddress.ReadConsistRuns | DCC.cpp:865-914 | for every decoder memory the consist reader surely calls back what CVs 20 and 19 say |
| AckManager.Manager.Setup | DCCACK.cpp:69-121 | the state that a job starts in, power and join included; -2 or -3 without a usable track and then nothing started |
| AckManager.Manager.SetupWord | DCCACK.cpp:123-129 | the same for programs that work on a word |
| AckManager.Manager.SkipToTarget | DCCACK.cpp:335-361 | a skip stops at the first SKIPTARGET behind it |
| AckManager.Manager.Callback | DCCACK.cpp:378-459 | retry, power sequence or the final callback, on the static fields |
| AckManager.Manager.Execute | DCCACK.cpp:166-376 | one turn of the opcode loop on the static fields is one step of the interpreter, with the waits that `PacketsWaitForResets` and `BaselineAndAckWait` state |
| AckManager.Manager.Loop | DCCACK.cpp:166-376 | `DCCACK::loop` runs until an opcode returns, as the interpreter's run on what the opcodes saw |
| ExrailCompiler.SkipScript | EXRAIL2.cpp:471-497 | `skipIfBlock` passes over any nested script with all its IFs, ELSEs, ENDIFs and PADs, at any nesting level |
| ExrailCompiler.TailIsSkipped | EXRAIL2.cpp:866-868 | at the end of a block one call gets behind the matching ENDIF, over the ELSE part if there is one |
| ExrailCompiler.FalseIfSkips | EXRAIL2.cpp:471-497 | a false IF lands behind its own ELSE, or behind its own ENDIF |
| ExrailCompiler.OperandsAreRead | EXRAIL2.cpp:104-114 | an instruction's PADs are exactly the operands that were compiled |
| ExrailCompiler.FindsRoutine | EXRAIL2.cpp:167-186 | the lookup finds the code from the routine of that id on, in any script file, and nothing if there is no such routine |
| ExrailCompiler.Simulates | EXRAIL2.cpp:539-1352 | compiler correctness for every script, condition outcome, call depth and number of FOLLOWs: same events in order, same conditions tested, and the task ends up behind the script, at its caller, dead, or at the next FOLLOW |
| ExrailCompiler.SimulatesRoutines | EXRAIL2.cpp:1032-1079 | routines that are called or followed fall through into each other until a RETURN comes back to the caller or kills a task without one; the end of the file kills the task |
| ExrailCompiler.TopIsInCode | EXRAILMacros.h:773-776 | every statement at the top of a script file, in front of the routines or in one, is at a place in its route code |
| ExrailCompiler.TaskDoesWhatScriptMeans | EXRAILMacros.h:518-606 | a task that starts at any statement at the top of a script file, as AUTOSTART and the event catchers start it, does exactly what the structured program means up to any number of FOLLOWs, and is dead after that unless it stands at one more |
| ExrailCompiler.RouteDoesWhatScriptMeans | EXRAIL2.cpp:450-455 | the same for a task that is created for a route, automation or sequence |
| ExrailCompiler.MoreFollows | EXRAIL2.cpp:1032-1035 | allowing one more FOLLOW extends what a script does and changes nothing before it |
| ExrailVm.WaitingOnlyDelays | EXRAIL2.cpp:705-796 | calls of `loop2` that find a delay, sensor, section or signal not ready add only what the instruction does while it waits: apart from that, the same things are done in the same order and the task ends up in the same place |
| ExrailVm.CallsMoveOn | EXRAIL2.cpp:539-1352 | whatever the bytes of the route code are, a call of `loop2` that finds everything ready takes the task somewhere else or kills it |
| ExrailTimer.TimersOnlyDelay | EXRAIL2.cpp:539-800 | the same with `delayTime`, `delayStart` and `waitAfter` in the state: whenever `loop2` is called and whatever it then sees, the task does what one that never waits does, one instruction for each call that neither sleeps nor finds something missing |
| ExrailTimer.LooksDecide | EXRAIL2.cpp:705-738 | out of sleep, RESERVE, WAIT_WHILE_RED, AT, ATGTE, ATLT, WAITFOR, WAITFORTT and the second part of READ_LOCO end if they find what they wait for; if not, nothing is done and they look again after 500, 50 or 100 ms |
| ExrailTimer.WaitsUntilFree | EXRAIL2.cpp:705-738 | so while no look finds it, any calls leave the task where it is, and the first that does gets past it |
| ExrailTimer.TimeoutEnds | EXRAIL2.cpp:740-752 | ATTIMEOUT ends at the first look that finds the sensor on or more than its time after its start (`TimeoutStarts`) |
| ExrailTimer.OthersDoNotWait | EXRAIL2.cpp:539-1352 | no other action waits |
| ExrailTimer.DelayIsKept | EXRAIL2.cpp:540 | once its timer is set, a task does nothing before the time has elapsed, however often it is called, and something from then on |
| ExrailTimer.DelayIsMeant | EXRAILMacros.h:550 | `DELAY(ms)` waits for ms, above 30 s cut to tenths of a second, if and only if ms is below 3276800 |
| ExrailTimer.DelayDelays | EXRAIL2.cpp:949-963 | so after a DELAY(ms) has been run the task does nothing before ms later, however often it is called, and is awake from then on |
| ExrailTimer.LongDelays | EXRAIL2.cpp:957-963 | DELAYMINS waits for its minutes below 32768 of them; the random part of DELAYRANDOM stays below its maximum whatever the clock says |
| ExrailTimer.DelayOfAnHour | EXRAIL2.cpp:953-955 | an input on which it does not |
| ExrailTimer.AfterSeesSensor | EXRAIL2.cpp:758-766 | a look that finds the sensor on starts the time of AFTER again |
| ExrailTimer.AfterIsLeft | EXRAIL2.cpp:758-778 | from then on, while no look finds the sensor on, AFTER is left by the first look at which the time is over and by none before; AFTEROVERLOAD likewise with 500 ms of power |
| ExrailTimer.AfterIsSkipped | EXRAILMacros.h:523 | an input on which the sensor goes off before AFTER first looks, and the time is not waited for |
| ExrailTask.LinkIsEnded | EXRAILMacros.h:773-776 | every script file can be scanned from its start to its ENDEXRAIL |
| ExrailTask.Rmft2.SkipIfBlock | EXRAIL2.cpp:471-497 | the loop with its nest counter finds what the recursive definition says, or kills the task |
| ExrailTask.Rmft2.FindRoute | EXRAIL2.cpp:167-186 | the scan for a route id stops at its code, or is -1 if there is none |
| ExrailTask.Rmft2.Call | EXRAIL2.cpp:1037-1045 | the return address is pushed and the routine entered, or the task dies of a full stack or an unknown route |
| ExrailTask.Rmft2.Follow | EXRAIL2.cpp:1032-1035 | the routine is entered with the same call stack, or the task dies of an unknown route |
| ExrailTask.Rmft2.Return | EXRAIL2.cpp:1073-1079 | back to the last return address, or dead without one |
| ExrailTask.Rmft2.Loop2 | EXRAIL2.cpp:539-1352 | on program counter and call stack array, `loop2` is one step of the interpreter |
| ExrailFlags.SectionsExclude | EXRAIL2.cpp:705-720 | after a RESERVE, whatever tasks, latches and signals do to the same flag byte, the next successful RESERVE or IFRESERVE of that section comes after a FREE of it or a FREEALL |
| ExrailFlags.WhichSectionsExclude | EXRAIL2.cpp:1359-1371 | a section excludes if and only if its id is below 256 |
| ExrailFlags.FreeAllFrees | EXRAIL2.cpp:718-720 | FREEALL frees every section and leaves task and latch flags alone |
| ExrailFlags.StaysReserved | EXRAIL2.cpp:1359-1371 | no other operation lets a reserved section go |
| ExrailFlags.OwnFlagsOnly | EXRAIL2.cpp:1359-1376 | over every operation, a section, a latch and a task are as the last operation on them left them, a signal shows the aspect it was last set to, and nothing else changes them |
| ExrailSections.NoTwoInOneSection | EXRAIL2.cpp:705-720 | with any number of tasks served in any order, and commands in between, a RESERVE or IFRESERVE takes a section only if nobody has taken it since it was last freed |
| ExrailSections.ReserveStops | EXRAIL2.cpp:705-712 | in any run, a task in front of a RESERVE stays there and changes no flag while the section is held, and the first call out of sleep after that takes it and goes on |
| ExrailSections.IfReserveTakes | EXRAIL2.cpp:898-901 | IFRESERVE does its block if and only if the section was not held, and then takes it |
| ExrailSections.ActionsAreDone | EXRAIL2.cpp:714-787 | FREE, FREEALL, LATCH and UNLATCH are done at once and do to sections and latches what they say |
| ExrailSections.OnlyServed | EXRAIL2.cpp:403-431 | a task that is created is there, and each task goes on only when it is served |
| ExrailRing.Exrail.Create | EXRAIL2.cpp:403-431 | the ring has the new task once and all others as before; up to 256 tasks have distinct ids and TASK_FLAG marks exactly the ids in use |
| ExrailRing.Exrail.Destroy | EXRAIL2.cpp:433-448 | that task leaves the ring, its flag is cleared, the next one is at the front, and the loco that it drives then is stopped unless an event started the task; who is pausing is left as it was |
| ExrailRing.Exrail.KillAll | EXRAIL2.cpp:1086-1088 | the loop ends, with an empty ring and no task flag set, and who is pausing as it was |
| ExrailRing.Exrail.Loop | EXRAIL2.cpp:527-535 | the ring turns, and its next task is served if none is pausing or it is the one that is |
| ExrailRing.Exrail.StartHandler | EXRAIL2.cpp:1613-1627 | a handler is started if and only if no live task runs the same handler for the same loco |
| ExrailRing.EachTaskRuns | EXRAIL2.cpp:527-535 | if nothing else happens, as many calls of `loop` as there are tasks serve each task exactly once in the order of the ring if none is pausing, only the pausing one if that is in the ring, and nobody otherwise |
| ExrailRing.StartedIsNext | EXRAIL2.cpp:424-430 | a new task is the next to be served, and the others follow in their old order |
| ExrailRing.EndSkipsOne | EXRAIL2.cpp:433-448 | when a task ends the others keep their order, and the one behind it is passed over once |
| ExrailRing.PauseHolds | EXRAIL2.cpp:534-535 | after a task has paused the others, calls of `loop` serve this task and no other, whatever is started and ended, until somebody resumes or pauses |
| ExrailRing.CommandsPauseAndResume | EXRAIL2Parser.cpp:281-288 | after `</ PAUSE>` no task is served, and when a command resumes all are, each in its turn |
| ExrailRing.FrozenForGood | EXRAIL2.cpp:534 | once `pausingTask` is neither null nor a task of the ring, over any run of calls, starts, ends and pauses no task is served until a command resumes, or a new task gets the address of the old one |
| ExrailRing.EndFreezes | EXRAIL2.cpp:433-448 | the end of a task leads there if and only if it is the one that is pausing |
| PacketRules.RunsStayCoalesced | DCCQueue.cpp:87-125 | in every run, speed entries of non-zero locos are pairwise distinct in loco, and function entries in loco and group |
| PacketRules.EstopIsSentNext | DCCQueue.cpp:132-149 | a scheduled emergency stop is the next packet sent, whatever requests other than emergency stops come in between, and then no loco is blocked |
| PacketRules.EarlierStopsStay | DCCQueue.cpp:132-149 | a waiting emergency stop is removed by a later one if and only if that is for all locos |
| PacketRules.StopsPileUp | DCCQueue.cpp:132-149 | over any run of requests, the emergency stops waiting are those since the last one for all locos |
| PacketRules.StopsOfOneLoco | DCCQueue.cpp:136-137 | n emergency stops of one loco wait as n entries |
| PacketRules.TwoStopsOfOneLoco | DCCQueue.cpp:136-137 | an input on which a later stop does not remove the earlier one of the same loco |
| PacketRules.RunsAlternate | DCCQueue.cpp:179-218 | in every run, no two packets in a row carry the same non-zero loco id |
| PacketRules.RunsConserve | DCCQueue.cpp:165-218 | at every moment of every run, what a request has been sent plus what its entries still owe is what it asked for, unless a later request displaced it |
| PacketRules.SentExactly | DCCQueue.cpp:165-218 | a request with r repeats that is not displaced has been sent exactly r + 1 times once it has left the queues |
| PacketRules.OffSentExactly | DCCQueue.cpp:179-218 | the gate-off packet of an accessory request has been sent once (with no delay, as often as the request) when nothing of the request is left in the queues, unless a speed packet displaced it |
| PacketRules.QueuesDrain | DCCQueue.cpp:165-218 | without new requests, forced dequeues at any times empty both queues, if at as many of them as are needed no gate-off has to wait; `Needed` counts the transmissions left and the pauses |
| PacketRules.DuesAreReached | DCCQueue.cpp:165-218 | there are such times from any moment on and in order |
| PacketRules.SentInTheEnd | DCCQueue.cpp:165-218 | so a request with r repeats that is not displaced is in the end sent r + 1 times, no more and no less |
| PacketRules.OffSentInTheEnd | DCCQueue.cpp:179-218 | and the gate-off packet of an accessory request as often as it should |
| PacketRules.SentIsAsked | DCCQueue.cpp:80-218 | over every run, each transmission of a request of any kind carries exactly the packet that was asked for, or for the gate-off of an accessory that with its gate bit cleared |
| PacketRules.NextIsFirst | DCCQueue.cpp:165-218 | a dequeue sends the first entry that does not have to wait, those of the high queue before all others; if all have to wait an idle packet is sent when one is due, and else nothing |
| PacketRules.OlderSpeedIsSent | DCCQueue.cpp:87-98 | after a new speed request an older speed packet of the loco that still waits is never sent, whatever follows, unless the entry found is a gate-off; then it can be sent later |
| PacketRules.OlderSpeedComesLast | DCCQueue.cpp:87-98 | an input on which the older speed is sent last |
| PacketRules.OlderFunctionIsGone | DCCQueue.cpp:102-125 | a function request replaces the older one of its loco and group in every case |
| PacketRules.StopDiscards | DCCQueue.cpp:132-149 | an emergency stop discards exactly the waiting speed packets of its loco, or of all, and these are never sent |
| PacketRules.RunsKeepAccessing | DCCQueue.cpp:179-218 | every transmission of an accessory request is its on packet, or after the last of them and not before the delay has elapsed, the same packet with bit 3 of its second byte cleared |
| PacketRules.AccessoryIsTimed | DCCQueue.cpp:151-159 | the same from the request on, in every run |
| PacketRules.PulseEnds | DCCQueue.cpp:179-218 | the gate-off of a pulse goes out at the next dequeue if the delay is over by then, unless the pulse began at a multiple of 65536 ms |
| PacketRules.SpeedSparesGateOff | DCCQueue.cpp:87-98 | a speed packet leaves the waiting gate-offs alone if and only if the first entry whose low word equals its loco id is not itself a gate-off |
| PacketRules.GateOffIsLost | DCCQueue.h:37-41 | an input on which it does not: the off packet is never sent |
| PacketScheduler.DCCQueue.AddQueue | DCCQueue.cpp:46-51 | the linked queue has the entry appended |
| PacketScheduler.DCCQueue.JumpQueue | DCCQueue.cpp:53-57 | the linked queue has the entry in front |
| PacketScheduler.DCCQueue.Remove | DCCQueue.cpp:65-78 | exactly that slot is unlinked, head and tail included |
| PacketScheduler.Scheduler.GetSlot | DCCQueue.cpp:221-255 | a slot that is in no queue, from the recycle list or new; no slot is ever lost |
| PacketScheduler.Scheduler.LeakCheck | DCCQueue.cpp:227-239 | the leak alarm never goes off |
| PacketScheduler.Scheduler.ScheduleSpeed | DCCQueue.cpp:87-98 | the first speed entry of that loco is rewritten in place, or a new one appended |
| PacketScheduler.Scheduler.ScheduleFunction | DCCQueue.cpp:102-125 | the same for a loco's function group |
| PacketScheduler.Scheduler.ScheduleAccessory | DCCQueue.cpp:155-159 | the on entry with its delay joins the low queue |
| PacketScheduler.Scheduler.ScheduleEstop | DCCQueue.cpp:132-149 | the entries of that loco, or all loco entries for loco 0, go to the recycle list, and the stop jumps the queue |
| PacketScheduler.Scheduler.ScheduleNext | DCCQueue.cpp:165-218 | high queue first, then low; what is sent, kept with one repeat less, turned into its gate-off or recycled |
| PacketScheduler.Scheduler.Operate | DCCQueue.cpp:46-255 | over every run, the linked queues and recycle list behave as sequences, stay disjoint and acyclic, and own every slot once |
| DccPackets.EstopIsEstop | DCC.cpp:185-232 | in 28 and in 128 steps a decoder reads an emergency stop if and only if the speed code is one |
| DccPackets.OrderIsRead | DCC.cpp:185-232 | in 28 and in 126 steps, a decoder with that address reads the speed and the direction that were meant, if and only if the address is one of 0 to 10239 |
| DccPackets.CoilIsRead | DCC.cpp:447-456 | an accessory decoder reads address, port and gate as they were meant, on, or off with the gate bit cleared |
| EstopLock.DriveIsQueued | DCC.cpp:185-232 | the packet queued for a loco tells it the commanded speed, forward if the code says so and it faces the way of its consist or neither; under the lock and for stops, a stop in that direction in front of all else |
| EstopLock.DriveIsSent | DCC.cpp:185-232 | that is what is sent for it, whatever is requested later |
| EstopLock.LockStopsAll | DCC.cpp:1400-1409 | the first packet after locking tells all locos to stop at once |
| EstopLock.AccessoryIsMeant | DCC.cpp:430-464 | `setAccessory` asks for exactly that address, port and gate: off, on, or on and 100 ms later off; others are refused |
| EstopLock.LockHolds | DCC.cpp:1400-1409 | from `estopLock(true)` to `estopLock(false)`, under any interleaving of throttles, reminders, forgets, requests and dequeues, every speed entry of the high queue is an emergency stop |
| EstopLock.NothingMoves | DCC.cpp:185-232 | no moving speed packet leaves the queues while locked, if no waiting gate-off was overwritten by one |
| EstopLock.LockPurges | DCC.cpp:1400-1409 | that is so right after locking if and only if no gate-off entry already held a moving packet, given that the low queue holds none |
| EstopLock.CorruptionLeaves | DCCQueue.cpp:132-149 | otherwise dequeues alone, from any time on and in the order of time, send a moving packet although locked |
| EstopLock.LockLeaksExactly | DCC.cpp:1400-1409 | from the lock on, dequeues in the order of time can send a moving packet if and only if a gate-off held one before, and if none did nothing that may happen under the lock sends one |
| EstopLock.BootedLockHolds | DCC.cpp:1400-1409 | from boot: after any requests and dequeues in which no speed packet but stops found a gate-off in its place, locking stops all: no moving packet leaves until the lock is released |
| EstopLock.LockLeaks | DCC.cpp:1400-1409 | an input on which that happens |
| EstopLock.AccessoriesAreAllowed | DCC.cpp:430-464 | whatever `setAccessory` asks for is no speed packet, so that the lock's theorems cover it |
| LocoTable.Table.GetSlot | LocoSlot.cpp:49-75 | the slot of that loco, old, recycled or new; null if and only if the id is 0, or it is unknown and either not to be created or there is no room; ids stay distinct, lists disjoint, and their sizes add up to `slotCount` |
| LocoTable.Table.Prepare | LocoSlot.cpp:25-47 | the slot heads the list and is in no consist |
| LocoTable.Table.Forget | LocoSlot.cpp:77-90 | that slot moves from the active list to the recycler and nothing else does |
| LocoTable.Table.ForgetAll | LocoSlot.cpp:92-109 | both lists are empty |
| DCCConsist.DeleteAnyConsist | DCCConsist.cpp:64-78 | all members of the consist that the loco leads or follows in are on their own, and all other consists untouched |
| DCCConsist.AddLocoToConsist | DCCConsist.cpp:80-111 | the loco joins at the tail with its direction; for ids in range it is refused if and only if it is another loco that is in a consist already or the table has no room for what is missing; chains stay disjoint and acyclic |
| DCCConsist.Parse | DCCConsist.cpp:6-62 | rejected if and only if an id is 0 or repeated, or in a consist that the first loco does not lead; accepted, the new consist has the ids in order with their directions, and all other consists are as before except the one that the first loco led; null is dereferenced if and only if the command is not rejected and needs more slots than there may be |
| DCCConsist.TwoLocosInOneSlot | DCCConsist.cpp:44-58 | a command on which null is dereferenced |
| LocoThrottle.OncePerMember | DCC.cpp:178-183 | each member of a consist gets exactly one order, with its own direction flag, and no other loco does |
| LocoThrottle.MembersPullTogether | DCC.cpp:178-232 | what is queued and sent for each of these orders tells that member the same speed, in the direction that takes it the way of its consist |
| LocoThrottle.ThrottleIsHeard | DCC.cpp:110-232 | from the command to the rails: the packet is read as the commanded speed for that loco, forward if the command says so and it faces the way of its consist, or neither |
| LocoThrottle.Dcc.SetThrottle2 | DCC.cpp:178-183 | along the consist pointers: those orders, and the new speed in those slots only |
| LocoThrottle.Dcc.SetThrottle | DCC.cpp:110-143 | followers, and a loco that has that target already, are left alone; otherwise the target is set for all members of the consist, and the consist is driven at once unless momentum leaves that to the reminders; a loco that is new to the table starts from speed 0 forwards by the same rule; loco 0 with speed 1 stops all |
| LocoThrottle.Dcc.Command | DCC.cpp:117-144 | `setThrottle` once the slot is known; a new emergency stop is ordered for the whole consist at once, whatever the momentum |
| LocoThrottle.TargetsAreDriven | DCC.cpp:124-132 | the target that each loco of the consist gets is the speed and the direction that its decoder is told; nobody else gets one |
| LocoThrottle.Dcc.EstopAll | DCC.cpp:1381-1392 | one broadcast stop, and every slot stopped in its direction |
| LocoThrottle.Dcc.ForgetLoco | DCC.cpp:1148-1164 | the loco is stopped, all members of its consist are on their own, other consists are untouched, its slot is recycled, and the reminder cursor is null or active |
| LocoThrottle.Dcc.ForgetAllLocos | DCC.cpp:1166-1173 | one broadcast stop and an empty table |
| LocoThrottle.Dcc.IssueReminder | DCC.cpp:1235-1327 | whether this state of the reminder loop and this slot call for a reminder, exactly what it sends, and the speeds and times that it changes |
| LocoThrottle.Dcc.RemindSpeed | DCC.cpp:1249-1293 | one step of the ramp, sent to the whole consist |
| LocoThrottle.ReminderIsStop | DCC.cpp:185-232 | the packets of a reminder, whichever way a member of the consist faces, are emergency stops if and only if the ramp steps on a stop code |
| LocoThrottle.SpeedsAreReminded | DCC.cpp:1235-1294 | in each even loop state every slot that follows nobody takes one step of its ramp, and all members of its consist, and nobody else, are told the speed that is then remembered |
| LocoThrottle.FunctionsAreReminded | DCC.cpp:1295-1324 | any function that is on has a loop state in which the loco is reminded of it, and its decoder hears that it is on |
| LocoThrottle.RemindersAreTrue | DCC.cpp:1295-1324 | in the odd states no decoder is told anything about a function but what its slot says |
| LocoThrottle.OutOfConsist | DCCConsist.cpp:64-78 | a loco that was driven the other way round in a consist which is dissolved is told to go on in its direction if and only if more notches are due than its speed, as always without momentum |
| Momentum.WrongWay | DCC.cpp:1251-1287 | a concrete loco in reverse that is told to go forward |
| LocoThrottle.Dcc.IssueReminders | DCC.cpp:1191-1220 | from the cursor, or from the head of a changed table, the first slot that needs a reminder gets exactly that one; the slots before it need none, and the cursor goes on behind it: one step of the rounds below |
| ReminderRounds.RoundsAreInOrder | DCC.cpp:1191-1220 | in any number of calls the slots are reminded pass by pass through the ten loop states, each pass in the order of the table, with no one left out and no one twice |
| ReminderRounds.PassIsEach | DCC.cpp:1191-1220 | a pass is exactly the slots that are to be reminded in its state (`PassAscends` has the order) |
| ReminderRounds.EveryoneIsReminded | DCC.cpp:1191-1220 | so with n slots everybody is reminded of everything in any 11(n + 1) + 1 calls in a row |
| LocoThrottle.LockCoversThem | DCC.cpp:1400-1409 | all of these operations are among those that the lock withstands |
| Momentum.ScalesAgree | DCC.cpp:1222-1233 | `normalize` and `dccalize` are mutually inverse between speed bytes and -128 to 127, and beyond that clamp |
| Momentum.RemindApproaches | DCC.cpp:1249-1288 | one reminder overflows nothing, moves the speed by exactly the notches due, towards the target and not past it |
| Momentum.WhichMomentum | DCC.cpp:93-108 | the loco's own setting counts or else the default, that for acceleration if and only if the target number is higher, less one for every eight steps missing unless acceleration is linear |
| Momentum.NotchesDue | DCC.cpp:1254-1286 | one notch comes due for every 7 ms times that; without momentum one reminder reaches the target |
| Momentum.RampReachesTarget | DCC.cpp:1235-1327 | over any run of reminders the speed moves monotonically and is at the target exactly when enough notches have come due |
| Momentum.EnoughReminders | DCC.cpp:1235-1327 | as many effective reminders as there are notches reach the target |
| Momentum.NoFaster | DCC.cpp:1251-1287 | no time counts twice: over any run of reminders, the notches that came due took at least 7 ms times the momentum each |
| Momentum.WhenDue | DCC.cpp:1249-1288 | exactly when a reminder moves the speed, with the wrap-around of the delay, which is the time elapsed if and only if that is below 32768 ms |
| Momentum.LateReminderIsLost | DCC.cpp:1254-1258 | a reminder that does nothing because it comes after 40 s, and one after 30 s that does something |
| Momentum.StopIsOnTheWay | DCC.cpp:1254-1286 | the next speed has the code of an emergency stop if and only if the speed before, the target and the notches due say so |
| Momentum.AcceleratingStops | DCC.cpp:1254-1286 | an input: a standing loco that is to accelerate is told to make an emergency stop |
| Momentum.NoWayRound | DCC.cpp:1235-1327 | a ramp that takes at most a notch at a time and passes a stop code is sent as an emergency stop there |
| LocoFunctions.RunsStayCovered | DCC.cpp:294-362 | after any function and frequency commands, a set function F0 to F28 has its group flag set |
| LocoFunctions.UsedIsReminded | DCC.cpp:294-365 | after any commands, a group is one to be reminded of if and only if a function of it has ever been switched on |
| LocoFunctions.FrequencyStays | DCC.cpp:402-413 | after any of them, the bits F29 to F31 are those of the last frequency, whatever functions were set |
| LocoFunctions.FuncMapCopies | DCCEXParser.cpp:1192-1199 | exactly the bits of the range are copied from the value |
| LocoFunctions.ReminderCopies | DCCEXParser.cpp:1164-1190 | parsing the reminder of a group sets the functions of that group as they were, and no others |
| LocoFunctions.FunctionRoundTrip | DCC.cpp:1295-1324 | from the reminders of the touched groups of any reachable slot, a fresh slot gets F0 to F28 exactly |
| LocoFunctions.ReminderIsHeard | DCC.cpp:1295-1324 | a decoder with that address is told the functions of the group as they are, and no others |
| LocoFunctions.FunctionSlot.Set | DCC.cpp:294-362 | `setFn` on the two fields in place, which functions above F28 leave alone |
| LocoFunctions.FunctionSlot.UpdateGroupFlags | DCC.cpp:385-393 | the group's flag is set and the others kept |
| LocoFunctions.FunctionSlot.Map | DCCEXParser.cpp:1192-1199 | the loop of `funcmap` |
| LocoFunctions.FunctionsDoNotMove | DCC.cpp:1295-1324 | function packets are read as no speed command and fit the generator |
| RingBuffer.RingStream.Commit | RingStream.cpp:175-200 | the message is in the ring with its client and length if it is not empty and there was room; otherwise earlier contents are unchanged |
| RingBuffer.RingStream.Send | RingStream.cpp:155-200 | a whole transaction gets in if and only if its length is below what `freeSpace` said before |
| RingBuffer.RingStream.Receive | RingStream.cpp:105-146 | a whole-message read returns client and bytes and removes exactly that message |
| RingBuffer.RingStream.Operate | RingStream.cpp:45-200 | main result: every run of transactions and whole-message reads on the byte ring delivers what a queue of messages delivers, and holds what it holds |
| RingBuffer.FirstInFirstOut | RingStream.cpp:45-200 | what that queue promises: readers get exactly the accepted messages in order |
| RingBuffer.RingStream.FreeSpace | RingStream.cpp:147-153 | the room left for a message, wherever the positions are |
| DccSignal.LevelsAreHeard | DCCWaveform.cpp:46-62 | the levels of any bits split uniquely into ones and zeros and are heard as those bits |
| DccSignal.FramedReadsBack | DCCWaveform.cpp:142-199 | a receiver that wants ten preamble ones, a zero before each byte and a stop bit reads back exactly the packets that were framed |
| Waveform.SealedChecks | DCCWaveform.cpp:203-218 | packet and checksum xor to zero |
| Waveform.DCCWaveform.Interrupt2 | DCCWaveform.cpp:142-199 | one bit choice on the fields and the two packet buffers |
| Waveform.DCCWaveform.PromotePendingPacket | DCCWaveform.cpp:224-252 | repeat, pending packet, idle or reset, in that order |
| Waveform.DCCWaveform.InterruptHandler | DCCWaveform.cpp:75-104 | the level of the state, and the next state |
| Waveform.DCCWaveform.FillPending | DCCWaveform.cpp:203-218 | the pending buffer holds the packet with its checksum and repeats |
| WaveformRuns.RunsAreGood | DCCWaveform.cpp:75-252 | in every interleaving of interrupts and main loop statements, levels, bits, packets begun and packets published fit together, and no packet is torn |
| WaveformRuns.PinCarriesPackets | DCCWaveform.cpp:75-252 | between packets, a receiver on the pin has read exactly the packets begun so far, with no tick unaccounted for |
| WaveformRuns.PreamblesAreFull | DCCWaveform.cpp:114-199 | and each of them behind the stop bit of the one before and a preamble of 16 ones, or 22 on the programming track |
| WaveformRuns.PublishedIsSent | DCCWaveform.cpp:203-252 | what the main loop published is sent whole and in order, each packet its repeats and one times in a row, with only single idle packets (main track) or reset packets (programming track) in between |
| WaveformRuns.CalledIsPublished | DCCWaveform.cpp:203-218 | every call of `schedulePacket` is published as it was made, in order, sealed with its checksum; `CallGoesOn` says that it gets there |
| WaveformRuns.PublishedIsNext | DCCWaveform.cpp:224-252 | whenever a packet is begun it is the one before again if repeats of that are left, else the one published and not begun, and a filler only if there is neither |
| Rmt.LoopIsFrame | DCCRMT.cpp:232-270 | preamble and items of a packet, up to the end markers, are the preamble, the bytes with their start bits and a stop bit |
| Rmt.LoopsReadBack | DCCRMT.cpp:232-270 | a receiver of the loops, after one stop bit, reads back the packets |
| RmtHandshake.AcceptedIsShown | DCCRMT.cpp:232-290 | in every interleaving, a packet accepted with r < 255 repeats stays loaded for exactly r + 1 interrupts (one with 255 for one), none is overwritten or skipped, and lost data is seen if and only if a packet had 255 repeats |
| RmtHandshake.FreeIsAccepted | DCCRMT.cpp:232-270 | a call with one to six bytes while nothing waits or repeats is accepted, whatever interrupts come in between |
| RmtHandshake.AcceptedIsNext | DCCRMT.cpp:272-290 | each interrupt loads what is accepted and not yet loaded, or leaves the packet loaded while repeats of it are left, and loads a filler only if there is neither |
| RmtReceiver.ReceiverReadsAccepted | DCCRMT.cpp:225-290 | end to end: in every interleaving a receiver on the track has read, after the first filler, one packet for each interrupt: the accepted packets in order, each for its repeats and one times in a row (once with 255), and single fillers between them |
| RmtHandshake.LostDataIsReached | DCCRMT.cpp:282-286 | a run that reaches the branch for lost data |
| RmtHandshake.RMTChannel.Encode | DCCRMT.cpp:232-270 | the nested loops fill the array with the items of the packet |
| RmtHandshake.RMTChannel.FillData | DCCRMT.cpp:232-270 | accepted if and only if nothing is waiting or repeating and it fits; refused, nothing changes and the result says why; an item in front of the data is written if and only if an accepted packet has no bytes |
| RmtHandshake.RMTChannel.OnInterrupt | DCCRMT.cpp:272-290 | the interrupt on the shared flags |
| CommandSplitter.StaysInText | DCCEXParser.cpp:161-251 | a NUL-terminated text is never read past its NUL; it gives at most ten values, and can overflow them only if there is a quote in it |
| CommandSplitter.SplitValues | DCCEXParser.cpp:161-251 | the loop ends; count and cells are those of the scan, unused cells are 0, exactly the closing quotes and the closing '>' that it got to are overwritten, and it says when it would write behind the result array |
| CommandSplitter.StringComesBack | DCCEXParser.cpp:188-245 | a quoted string is the marker and the position of its first character, and its closing quote becomes a NUL |
| CommandSplitter.CommandComesBack | DCCEXParser.cpp:161-251 | main result: any list of numbers, keywords and quoted strings, each behind a space, is read as their values, hashes and positions, up to ten cells; closed by '>' it gives these, and with a NUL instead an error unless there are ten |
| CommandSplitter.CommandOverflows | DCCEXParser.cpp:191-203 | such a command is written behind the result array if and only if one of its strings begins when exactly nine cells are taken |
| CommandSplitter.HexComesBack | DCCEXParser.cpp:212-221 | in hexadecimal commands any number, in either case, is read as its value cut to 16 bits |
| CommandSplitter.KeywordInHex | DCCEXParser.cpp:217-230 | there a keyword without digits and the letters A to F is still found |
| CommandSplitter.SpacesAreSkipped | DCCEXParser.cpp:178-181 | any number of spaces is as good as none |
| CommandSplitter.JunkIsZeros | DCCEXParser.cpp:204-235 | a character that can neither begin nor continue a parameter is not passed: all values that are left become zeros |
| CommandSplitter.OpenStringFails | DCCEXParser.cpp:238-245 | a string that is not closed is an error |
| CommandSplitter.FifthStringOverflows | DCCEXParser.cpp:191-203 | such a command with six parameters |
| CommandSplitter.TenthStringOverflows | DCCEXParser.cpp:191-203 | with nine values taken, any quote does that |
| CommandSplitter.DigitsRead | DCCEXParser.cpp:212-217 | any number in decimal is read as its value cut to 16 bits |
| CommandSplitter.ValuesComeBack | DCCEXParser.cpp:161-251 | up to ten `int16_t` values printed in decimal and closed by '>' are returned exactly |
| CommandSplitter.HashesAgree | KeywordHasher.h:33-39 | the 32-bit run-time hash step and the compile-time one agree modulo 2^16 |
| CommandSplitter.KeywordComesBack | KeywordHasher.h:33-44 | any keyword of letters, digits and underscores, in either case, is returned as the `_hk` value of its upper case form |
| CommandSplitter.KeywordIsFound | KeywordHasher.h:33-44 | so a command finds the keyword that the source writes in front of `_hk`, in whichever case its letters are typed |
| Overload.BackoffHolds | MotorDriver.cpp:555-672 | over any run of checks and of switching: the wait is between 40000 and 10000000 us, the j-th restore since a reset comes later than min(40000 * 2^(j-1), 10000000) us after its overload began, and an alert ends well only after more than 20000 us without a bad sample |
| Overload.ChecksDecide | MotorDriver.cpp:555-672 | over any run, what a check on the 32-bit clock decides is what real time says: a fault or high current begins an alert; the alert cuts the power at the first check at which both are there after 5 ms or one after 100 ms and at no other, and ends well at the first check more than 20 ms after the last bad one; power comes back at the first check after the wait |
| Overload.ShortIsCut | MotorDriver.cpp:555-672 | if every check of a powered track sees a fault or high current, its power is cut at the latest at the first check 100 ms after the first of them |
| Overload.StampsAreRenewed | MotorDriver.h:277-283 | a check leaves the stamp of its mode less than five minutes back, so that checks up to an hour apart are in time for `ChecksDecide` |
| Overload.OverloadIsTested | MotorDriver.cpp:650-668 | an overloaded track never goes straight to on |
| Overload.DiffIsReal | MotorDriver.h:277-283 | the 32-bit clock never says that more time has passed than really has |
| Overload.MotorDriver.CheckPowerOverload | MotorDriver.cpp:555-672 | one check on the driver's fields, with the power pin on in the modes ON and ALERT only |
| Overload.MotorDriver.ChangePower | MotorDriver.cpp:234-256 | switching on or off restarts the clock of the new mode only |

## Left out

- AckPower.PowerRules: counts the writes since the BASELINE of the attempt; a retry starts a new count.
- ServiceMode.LocoIdRoundTrip: HIGHEST_SHORT_ADDR is its default of 127.
- ServiceMode.ConsistIdRoundTrip: is about truthful decoders; one that refuses CV 20 is reported with -4 and no address is promised.
- PacketRules.RunsKeepAccessing: the clock does not wrap within a run.
- PacketRules.SentExactly: a packet that a later request replaces or an emergency stop purges is excluded, as are loco ids that alias a waiting gate-off.
- EstopLock.LockHolds: is about the queue; that one leak remains is what LockLeaks shows.
- EstopLock.NothingMoves: is about what leaves the queues; raw packets of the `<M` command go past them to the waveform generator (DCCEXParser.cpp:567).
- DCCConsist.Parse: a call without parameters only lists the consists and is not modelled.
- LocoTable.Table.ForgetAll: the `delete` loops are modelled as dropping both lists.
- RingBuffer.RingStream.Commit: a second commit without a new mark, and flash-string inserts, are outside the protocol; `count` reads its two bytes in the order in which they are written.
- ExrailRing.Exrail.Create: with more than 256 tasks ids are shared (the field `crowded`), so distinct ids are promised only up to there.
- Momentum.RampReachesTarget: counts notches due, so a reminder that comes too late counts what the wrapped delay says.
- ExrailCompiler.TaskDoesWhatScriptMeans: RANDOM_CALL, RANDOM_FOLLOW and KILLALL are not in scripts; what START, SENDLOCO, BLINK and PAUSE do to other tasks, and what any action does outside the task, is one event; opcodes without a case in `loop2`, and ONRAILSYNCON and ONRAILSYNCOFF, which have one with BOOSTER_INPUT only, are no actions.
- ExrailVm.WaitingOnlyDelays: what an instruction does while it waits, such as stopping the loco, is one event.
- ExrailTimer.TimersOnlyDelay: `int` is 32 bits wide as on the ESP32; the outcome of IFTIMEOUT, like that of any IF, is an input.
- ExrailSections.NoTwoInOneSection: tasks that have ended stay in the list, dead; how other conditions turn out is an input.
- AckLogic.PacketsWaitForResets: how many resets are wanted (3, 8 or 20) is behind the input.
- ExrailRing.FrozenForGood: a new task may be allocated at the address of an ended one; that is the act `Start` with the same task.
- The speeds that `pause` saves and `resume` sends to locos.
- Blink tasks and `killBlinkOnVpin` are not in the ring; route code positions are unbounded, not `int16_t`.
- Packets longer than five bytes: the predicates `Fits` leave them out, as no caller makes them.
- Two readings of a clock in one step are one reading.
- The wait loop of `schedulePacket` is in the interleaving model only; `clearRepeats`, the RailCom cutout, the reminder window and the reset counter are left out.
- Allocation failure of `new LocoSlot` and `new PendingSlot`.
- DC mode and LaBox branches, the sniffer and saved speed fields, broadcasts, display and diagnostic output, `ackRetrySum`.
- The binary state packets that are sent for functions above F28.
- Common fault pin, raw current conversion and inrush throttling in the motor driver.
- ADC sampling and pulse detection behind `getAck`, timers and pins: they are inputs.
- WiFi, Ethernet, serial, CAN and displays, turnouts, turntables, EEPROM, WiThrottle: easy members or hardware.
