# Verified model of the Svan command pipeline

A Dafny 4.11 model of the path a command takes from the language-model brain to the robot: the brain
(`brain.py`), the heartbeat and publisher (`dds_publisher.py`), the DDS channel, the bridge to the robot's
SDK (`subscriber.cpp`), and the wire format of the samples (`JoyData.hpp`, `JoyData.cpp`).
`dafny verify dfyconfig.toml` checks all of it.

The publisher and the bridge each keep their own idea of the robot's mode. What links them is a button that is
pressed for ten frames after a mode change, over a channel that may lose frames. The main results are about
that link and about everything on both sides of it, for every interleaving. Contracts state the program's numbers
(ten frames, five entries, 500 ms, the modes 0, 1 and 4, the speed limits) as literals.

| file | contents |
|---|---|
| `types.dfy`, `numeric.dfy` | modes, frames, limits; rounding half to even, clipping, clamping |
| `brain.dfy`, `brain_threads.dfy` | validation, the state swap and the command memory: one caller as a class, any number of threads as a transition system |
| `publisher.dfy` | the publisher as a class, and the click in closed form |
| `bridge.dfy` | the bridge as a class, its command trace, the watchdog and the clock |
| `link.dfy` | the bridge's mode as a law over what was published and what arrived |
| `pipeline.dfy` | the whole system as one transition system, with its invariants |
| `guarantees.dfy` | the end-to-end theorems |
| `schedules.dfy`, `hold_window.dfy` | building runs of the pipeline; how long a click must be held |
| `reachability.dfy` | what can happen: losses, silence, shutdown, and that no part gets stuck |
| `type_props.dfy` | the one-time, double-checked property list, sequentially and for any number of threads |
| `codec.dfy`, `cdr_stream.dfy`, `word_bits.dfy` | plain CDR encoding and decoding, the stream class and the four traversals, the byte swap on 32-bit masks |

Conventions. Velocities are exact reals; times are steady-clock nanoseconds. A step of a transition system that
is not possible in a state (a thread waiting for the lock) leaves the state alone, so every sequence of steps is
a run. The ghost trace of the bridge records each `setMode` and `setVelocity` call with its cause. The reader is
created without QoS settings, so it has the DDS default history KEEP_LAST with depth 1 (section 2.2.3.18 of OMG
DDS 1.4); `Pipeline` has both that one-slot reader and one that queues. Before either comes a wire that keeps the
packets in order, delivers each after any delay, and may lose any of them.

## What turned out

- The click is long enough for exactly those schedules with at most ten frames between two takes. If a mode is
  held for h frames, every schedule with at most g frames between takes adopts it iff g is at most h and at most
  ten (`HoldWindows.HoldWindowExact`), whether frames count when published or when they arrive. With eleven it can
  be missed for good.
- A missed click is never repeated. `Guarantees.ChangeGetsThrough` says exactly when a change is adopted.
- The watchdog's freeze is latched: a publisher that resumes in MOVE after its click is over leaves the robot
  standing (`Guarantees.FreezeIsLatched`). Such runs exist for every moving state (`Reachability.FreezeHolds`).
- The five-entry memory is exact at rest in every run iff there is at most one thread
  (`BrainThreads.FiveExactly`). With more it is exact at rest in every run in which no two threads are inside the
  memory section together (`BrainThreads.SequentialMemory`). An overlapping run can end with the last five too, but
  the program's two threads can also be left with four of six, and k threads with six less k
  (`BrainThreads.OverlapForgets`). It never underflows and never exceeds five at rest.
- A button that ends MOVE sends no zero velocity. Outside MOVE the last velocity stays commanded until the watchdog,
  a new MOVE or the shutdown replaces it, after a failed command too (`Schedules.StandKeepsVelocity`);
  `Guarantees.VelocityLaw` says what it is at every point.
- `mode` is any integer in `config.py`, although the prompt speaks of 0, 1 and 4. Another integer moves nothing
  and presses nothing, so the bridge keeps its mode with zero velocity.

## Model

| member | source | states |
|---|---|---|
| Numeric.RoundIsNearest | Svan_project1/robonex_ai/dds_publisher.py:32-34 | the rounding used is the only one that is nearest and takes the even neighbour on a tie |
| Numeric.Round2IsHundredths | Svan_project1/robonex_ai/dds_publisher.py:32-34 | rounding to two places gives exactly the nearest number of hundredths |
| Numeric.ClampProjects | Svan_project1/robonex_ai/subscriber.cpp:55-57 | the clamp always lands in the range and at the nearest point of it |
| Numeric.TransportIsExact | Svan_project1/robonex_ai/subscriber.cpp:141-144 | on a command within bounds the publisher's clip and the bridge's clamp change nothing: the robot gets the negated command rounded to hundredths, within 0.005 |
| Brain.ValidateExactly | Svan_project1/robonex_ai/config.py:12-17 | a reply validates to a state iff that state is in range, labelled by its mode, and each reply field is its own or is absent where it equals the default |
| Brain.CommandBrain.ProcessTextCommand | Svan_project1/robonex_ai/brain.py:79-114 | a valid reply becomes the current state and the newest memory entry, any failure installs safe stand and leaves no entry; the memory stays exactly the last five successes |
| BrainThreads.MemorySafety | Svan_project1/robonex_ai/brain.py:93-96 | for any number of threads and any interleaving the memory is a contiguous suffix of the append log, at least as long as the number of threads inside the section, at most five more, and pop never meets an empty list |
| BrainThreads.MemoryAtRest | Svan_project1/robonex_ai/brain.py:93-96 | with no thread inside, at most five newest entries, and if any was dropped at least six less the number of threads |
| BrainThreads.SequentialMemory | Svan_project1/robonex_ai/brain.py:93-96 | for any number of threads, if no two are ever inside the section together, the memory at rest is exactly the last five successes |
| BrainThreads.FiveExactly | Svan_project1/robonex_ai/brain.py:93-96 | every run leaves exactly the last five successes at rest iff there is at most one thread |
| BrainThreads.UninterruptedCommand | Svan_project1/robonex_ai/brain.py:79-114 | one thread's uninterrupted steps amount to one whole command: state, history and memory |
| BrainThreads.OverlapForgets | Svan_project1/robonex_ai/main.py:9-16 | k overlapping commands can leave six less k of six entries, so the lower bound of `MemoryAtRest` is met; the two threads of the program can be left with four |
| Publisher.DDSPublisher.PublishMovement | Svan_project1/robonex_ai/dds_publisher.py:30-76 | what one call writes, for any history of calls: priority 50, on mode 4 the negated, rounded speeds limited to 0.5, 0.4 and 0.8, else zeros, the noise on axis 5, and the mode's button exactly in the first ten frames of a run of equal modes |
| Publisher.FrameOnTheWire | Svan_project1/robonex_ai/dds_publisher.py:30-76 | the same for the frames of any history, as the pipeline publishes them |
| Publisher.AfterClosedForm | Svan_project1/robonex_ai/dds_publisher.py:55-70 | the two tracking fields as a function of the whole mode history, including a history that starts with -1 |
| Publisher.ClickClosedForm | Svan_project1/robonex_ai/dds_publisher.py:55-70 | for any mode history a button of frame i is set iff it is the button of the frame's mode and fewer than ten frames precede it in its run |
| Publisher.PressedFramesByRun | Svan_project1/robonex_ai/dds_publisher.py:55-70 | the number of pressed frames is the sum over maximal runs of modes with a button of min(length, 10) |
| Publisher.EveryHistoryHasRuns | Svan_project1/robonex_ai/dds_publisher.py:55-70 | every history splits into maximal runs, so the count holds for all of them |
| Bridge.BridgeNode.HandleSample | Svan_project1/robonex_ai/subscriber.cpp:123-178 | one valid sample changes state and trace as the specification function says |
| Bridge.BridgeNode.Run | Svan_project1/robonex_ai/subscriber.cpp:62-214 | nothing is sent when an SDK part fails to start; otherwise the trace is boot, the turns of the loop, then zero velocity and mode 0, in that order |
| Bridge.LoopKeeps | Svan_project1/robonex_ai/subscriber.cpp:119-194 | every run of the loop keeps the bridge invariant: tracked mode is the commanded one, a fired watchdog means standing still, MOVE means the last command is the last sample's velocity; and after every check more than 500 ms of silence means fired |
| Bridge.TraceDiscipline | Svan_project1/robonex_ai/subscriber.cpp:95-199 | over a whole normal run, for arbitrary axes: STAND first, speeds within 0.5, 0.4 and 0.8, no motion outside MOVE, no redundant sample-driven mode command, two firings separated by a sample, and the only shutdown commands are the last two, zero velocity and then SLEEP |
| Bridge.SilenceExactly | Svan_project1/robonex_ai/subscriber.cpp:180-189 | without valid samples the watchdog fires once, iff some check came more than 500 ms after the last one, sending mode 1 and then zero velocity, and nothing else is sent |
| Bridge.WatchdogDeadline | Svan_project1/robonex_ai/subscriber.cpp:180-189 | with checks at most d apart, some check no later than t + 500 ms + d leaves the robot standing still, and no earlier check does anything |
| Bridge.BootDeadline | Svan_project1/robonex_ai/subscriber.cpp:114-128 | the same deadline for a bridge that has heard nothing since it booted |
| Bridge.NeverEarly | Svan_project1/robonex_ai/subscriber.cpp:126-128 | within 500 ms of a valid sample the watchdog does nothing, in that turn and in silent ones after it |
| Bridge.IdealLoopFiresAt26 | Svan_project1/robonex_ai/subscriber.cpp:34-35 | with checks exactly 20 ms apart it has fired iff 26 silent turns have passed |
| Bridge.VelocityAfterSample | Svan_project1/robonex_ai/subscriber.cpp:130-166 | the commanded velocity after any sample with any axes: if the robot is then in mode 4 the nearest one within the limits to axes 1, 0 and 3, otherwise the one before |
| Link.LossTolerance | Svan_project1/robonex_ai/subscriber.cpp:146-156 | after a change to a mode with a button, under any losses, the bridge ends in it iff one of its first ten frames arrived or it was in it already |
| Link.LosslessRefinement | Svan_project1/robonex_ai/subscriber.cpp:146-156 | with everything delivered the mode is the last published one that has a button, or STAND |
| Link.HoldWindow | Svan_project1/robonex_ai/dds_publisher.py:55-70 | a bridge that never misses ten frames in a row is in the mode published with the newest frame it saw |
| Pipeline.Always | Svan_project1/robonex_ai/brain.py:23-29 | in every run: snapshots under the lock are whole installed states, published versions never decrease, packets are exactly the closed-form frames in order, and the bridge's mode and trace follow from what it saw |
| Guarantees.MotionSafety | Svan_project1/robonex_ai/subscriber.cpp:123-199 | at every point of every interleaving the commanded mode is known, and in MOVE the commanded velocity is the rounded, negated one of the whole state behind the last delivered sample, zero unless that state's mode is MOVE; it exits only after a signal, with zero velocity and SLEEP as the last two commands |
| Guarantees.SignalEndsIt | Svan_project1/robonex_ai/subscriber.cpp:119-200 | once signalled and out of its turn the bridge takes and sends nothing more but the shutdown, and stays down |
| Guarantees.Provenance | Svan_project1/robonex_ai/dds_publisher.py:37-47 | every sample-driven command in the whole trace goes back to one frame made from one installed state, with exactly that state's velocity or pressed mode |
| Guarantees.WireVelocity | Svan_project1/robonex_ai/dds_publisher.py:37-47 | for every state the brain can hold the bridge's clamped reading of its frame is the intended velocity, within 0.005 of the negated command |
| Guarantees.NoGoingBack | Svan_project1/robonex_ai/brain.py:25-28 | the versions behind successive sample-driven commands never decrease |
| Guarantees.SnapshotIsPublished | Svan_project1/robonex_ai/brain.py:25-28 | whatever happens after a snapshot, the next frame published carries it |
| Guarantees.ChangeGetsThrough | Svan_project1/robonex_ai/dds_publisher.py:55-70 | in every run with any losses, exactly when the newest published mode has been adopted |
| Guarantees.LosslessAgreement | Svan_project1/robonex_ai/subscriber.cpp:119-156 | in every run with a queue, any delays, no loss and no firing, the bridge's mode is the last mode with a button among the frames it has handled |
| Guarantees.EndsAgree | Svan_project1/robonex_ai/subscriber.cpp:119-156 | once nothing is in flight the bridge is in the mode being published, or, if that has no button, in the last one before it that has |
| Guarantees.FreezeIsLatched | Svan_project1/robonex_ai/subscriber.cpp:183-189 | after a firing, with the hold used up and nothing pressed in flight, any further run publishing the same mode leaves the robot standing still, commanded by the watchdog alone |
| Guarantees.DeadlineInPipeline | Svan_project1/robonex_ai/subscriber.cpp:180-189 | in every run whose watchdog checks are at most d apart: more than 500 ms + d without a sample means fired and standing still, and fired means more than 500 ms without one |
| Guarantees.VelocityLaw | Svan_project1/robonex_ai/subscriber.cpp:153-189 | in every run and every mode up to the exit: the commanded velocity is none, zero if the watchdog set it last, or the intended one of the state behind the newest sample that left the robot in MOVE |
| Guarantees.StillExactly | Svan_project1/robonex_ai/subscriber.cpp:153-189 | the commanded velocity is zero iff the watchdog set it last, or that state was not in MOVE, or its three speeds round to zero |
| Guarantees.BridgeRunsItsLoop | Svan_project1/robonex_ai/subscriber.cpp:119-194 | in every run of the pipeline its bridge has worked off some turns of the bridge program and part of a batch; their samples are, in order, the wire frames of the log, and the clock readings never go back |
| Reachability.AnyLossPattern | Svan_project1/robonex_ai/dds_publisher.py:55-70 | every pattern of kept and lost frames has a run that delivers exactly those, and its bridge adopts the mode iff one of the first ten was kept |
| Reachability.SilenceReached | Svan_project1/robonex_ai/subscriber.cpp:180-189 | from every moving state a run leads to ns of silence at a check: frozen if more than 500 ms, moving as before if not |
| Reachability.FreezeHolds | Svan_project1/robonex_ai/subscriber.cpp:183-189 | from there k more frames of the same moving state arrive and are seen, and the robot still stands still |
| Reachability.ShutdownReachable | Svan_project1/robonex_ai/subscriber.cpp:119-200 | from every state a signal and the bridge's own steps lead to the clean exit |
| Reachability.NextFrame | Svan_project1/robonex_ai/brain.py:23-30 | the heartbeat never gets stuck: from every reachable state it publishes another frame |
| Reachability.CommandGetsThrough | Svan_project1/robonex_ai/brain.py:87-89 | an idle thread installs its state at once, or when the snapshot that holds the lock is done |
| Reachability.CommandCompletes | Svan_project1/robonex_ai/brain.py:93-96 | the memory section takes a thread at most three steps of its own and no lock |
| Schedules.StandKeepsVelocity | Svan_project1/robonex_ai/subscriber.cpp:153-166 | for every moving state there is a run, without loss or delay, that ends in STAND in the safe state after a failed command with the moving velocity still commanded |
| HoldWindows.TenIsEnough | Svan_project1/robonex_ai/dds_publisher.py:55-70 | with a one-slot reader and at most g <= 10 frames arriving between takes, every change to a mode with a button that is held for g frames is adopted while one of those frames is the newest seen |
| HoldWindows.TakenInTime | Svan_project1/robonex_ai/subscriber.cpp:106-120 | a change cannot slip by unseen: once more than g further frames have arrived and no batch is in hand, the bridge has got as far as its first frame |
| HoldWindows.TenKeepsUpToDate | Svan_project1/robonex_ai/subscriber.cpp:106-120 | with at most ten, whenever no batch is in hand the bridge is in the newest mode it was offered, if that has a button and the watchdog was quiet |
| HoldWindows.ElevenIsTooMany | Svan_project1/robonex_ai/subscriber.cpp:106-120 | for every g above ten and every holding time, a schedule in which the bridge takes frames of the mode and is never in it |
| HoldWindows.ShortHoldIsMissed | Svan_project1/robonex_ai/dds_publisher.py:55-70 | a mode held for fewer frames than may pass between takes can be missed |
| HoldWindows.HoldWindowExact | Svan_project1/robonex_ai/dds_publisher.py:55-70 | changes held for h frames are adopted in every schedule with at most g frames between takes iff g is at most h and at most ten, whether counted at publication or on arrival |
| HoldWindows.UpToDateExact | Svan_project1/robonex_ai/dds_publisher.py:55-70 | the bridge is up to date in every such schedule iff g is at most ten |
| TypeProps.PropertyTable.GetTypeProps | Svan_project1/robonex_ai/JoyData.cpp:43-63 | every call returns the four entries in order and builds them at most once |
| TypeProps.BuiltOnce | Svan_project1/robonex_ai/JoyData.cpp:43-63 | any number of threads, any interleaving: built at most once, one thread inside the mutex, and a returned caller finds the list complete and linked |
| TypeProps.NeverChangesAgain | Svan_project1/robonex_ai/JoyData.cpp:48-62 | once the flag is set no step of any thread changes the list |
| TypeProps.EveryCallReturns | Svan_project1/robonex_ai/JoyData.cpp:43-63 | no caller gets stuck: from every reachable state, steps of it and of the mutex holder make it return, with the list complete, linked and built once; a lone caller needs only its own steps |
| TypeProps.FastPath | Svan_project1/robonex_ai/JoyData.cpp:48-49 | once built, a call returns after one look at the flag, whoever holds the mutex |
| TypeProps.CallAgain | Svan_project1/robonex_ai/JoyData.cpp:48-49 | a caller that returned can call again, which changes nothing |
| WordBits.SwapBitsIsByteSwap | Svan_project1/robonex_ai/cyclonedds_install/include/ddscxx/org/eclipse/cyclonedds/core/cdr/cdr_stream.hpp:98-104 | the two mask-and-shift lines reverse the four bytes of every pattern |
| WordBits.SwapBitsTwice | Svan_project1/robonex_ai/cyclonedds_install/include/ddscxx/org/eclipse/cyclonedds/core/cdr/cdr_stream.hpp:98-104 | swapping twice gives back every pattern |
| Codec.BytesSpellValue | Svan_project1/robonex_ai/cyclonedds_install/include/ddscxx/org/eclipse/cyclonedds/core/cdr/cdr_stream.hpp:125-137 | the two byte orders are the little-endian and the big-endian one |
| Codec.SwapChangesOrder | Svan_project1/robonex_ai/cyclonedds_install/include/ddscxx/org/eclipse/cyclonedds/core/cdr/cdr_stream.hpp:695-699 | swapping on a host of one order yields the bytes of the other |
| Codec.RoundTrip | Svan_project1/robonex_ai/JoyData.hpp:171-270 | reading what was written, at any position, in any byte order, through any property list and into any value, carries over the listed members |
| Codec.CarryExactly | Svan_project1/robonex_ai/JoyData.hpp:225-270 | a traversal takes exactly the listed members from the written value and keeps the others |
| Codec.RoundTripComplete | Svan_project1/robonex_ai/JoyData.hpp:171-270 | a property list round-trips every value iff it lists all three members |
| Codec.TableIsComplete | Svan_project1/robonex_ai/JoyData.cpp:55-60 | the type's own list round-trips every value and takes 37 bytes plus the padding before the axes |
| Codec.WireLayout | Svan_project1/robonex_ai/JoyData.hpp:171-216 | the bytes on the wire: priority, padding to a multiple of four, six axes without a length, twelve buttons (section 7.4.1 of OMG DDS-XTypes 1.3) |
| CdrStreams.CdrStream.Write | Svan_project1/robonex_ai/JoyData.hpp:171-216 | succeeds exactly when the bytes fit and no must-understand member is unknown; then those bytes are in place, the rest of the buffer is as before, and they do not depend on the host's byte order |
| CdrStreams.CdrStream.Read | Svan_project1/robonex_ai/JoyData.hpp:225-270 | succeeds under the same condition, consumes exactly as many bytes and fills the value by decoding them |
| CdrStreams.CdrStream.Move | Svan_project1/robonex_ai/JoyData.hpp:279-324 | advances the cursor by exactly what write produces from the same position |
| CdrStreams.CdrStream.Max | Svan_project1/robonex_ai/JoyData.hpp:333-378 | the same advance |
| CdrStreams.CdrStream.WriteWords | Svan_project1/robonex_ai/cyclonedds_install/include/ddscxx/org/eclipse/cyclonedds/core/cdr/cdr_stream.hpp:680-704 | align, copy as the host stores, swap in place: zeros and then the words in the stream's order |
| CdrStreams.CdrStream.ReadWords | Svan_project1/robonex_ai/cyclonedds_install/include/ddscxx/org/eclipse/cyclonedds/core/cdr/cdr_stream.hpp:605-628 | the words at the aligned cursor, in the stream's order |
| CdrStreams.CdrStream.WriteSample | Svan_project1/robonex_ai/JoyData.hpp:219-223 | with the type's own list, succeeds iff 40 bytes are there |
| CdrStreams.CdrStream.ReadSample | Svan_project1/robonex_ai/JoyData.hpp:273-277 | yields any value whose encoding the buffer holds |
| CdrStreams.Transfer | Svan_project1/robonex_ai/JoyData.hpp:219-277 | between hosts of any byte orders, over a stream of any byte order, the reader ends with the writer's value iff the buffer holds 40 bytes |

## Left out

- The language-model call, prompts, JSON parsing, speech recognition, the web server and logging are I/O: a command's outcome is a parameter, either a failure or the parsed fields. The prompt files enforce nothing and are not part of this model.
- Errors raised by the printing after a state swap, which would install safe stand after all.
- The heartbeat loop as a method: its lock, field-by-field copy, unlock and publish are steps of `Pipeline`, which run forever in any order with the others. The command side's lock, assignment and unlock are one step.
- Invalid samples in `Pipeline`: the bridge skips them (`Bridge.OnArrival`), so there they are steps that change nothing.
- DDS itself: the channel is an environment that keeps order and may delay or lose packets. Duplicated or reordered delivery is not modelled.
- The bridge's exception exits (`Svan_project1/robonex_ai/subscriber.cpp:205-211`), which skip the clean shutdown.
- IEEE details: NaN, negative zero and the rounding of a double to a 32-bit float. The codec carries 32-bit patterns unchanged. `operator==` and the stream output of `JoyData_` are not modelled.
- The random noise on axis 5 is a parameter of a publish; the bridge never reads it. The signature kept for logging affects no frame.
- The bodies of `align`, `bytes_available`, `incr_position`, `finish_member` and `finish_struct` are not part of the repository; they follow the comments of `cdr_stream.hpp`. A failed write may leave bytes after its start position changed.
- The SIZE_MAX cursor of unbounded members, which this type does not have, and wrap-around of the cursor at 2^64.
- Key-only streaming modes: the type has no keys, and the traversals here visit every member.
- Weak memory: the relaxed load of the initialisation flag is taken to be sequentially consistent.
- Everything under `backup/`, which holds older versions of the same programs.
