# Verification of the Harp core firmware

A Dafny model of this ESP32-S3 Harp device firmware and proofs about it. `dafny verify dfyconfig.toml` checks the
whole project.

## What is modelled

The device speaks the 8-bit Harp protocol on two transports at once, USB CDC and TCP, keeps a register file, emits
periodic heartbeats on the seconds of a settable and lockable clock, follows an external synchronization clock, and
keeps a Wi-Fi/TCP connection alive from a stored profile.

- `Framing`, `HarpMessage`: what a receive buffer makes of the bytes it is handed, and two of them polled in turn.
- `Commands`, `Replies`, `CoreRegisters`: the command checks and answers, the reply frame, and the host that builds
  commands and parses replies.
- `WireFormat`, `RegisterMap`: frames byte for byte, what the host makes of damaged ones, and the registers by address
  and by bit.
- `Scheduler`: the Harp clock, the heartbeat deadline and the operation mode over unbounded microseconds;
  `WrappedDeadline`: the same with the 32-bit deadline of the firmware, and the refinement between the two;
  `ModeMachine`: the operation mode in the bits of its register; `Heartbeats`: how many heartbeats there are and when; `WholeSeconds`: whether they fall on whole Harp seconds.
- `SyncDecoding`, `Synchronizer`: the clock receiver, as a decoder of byte streams and as the class its interrupt runs.
- `NetworkProtocol`, `ManualDisconnect`, `ReconnectBackoff`, `StaleSchedule`: core task, Wi-Fi event loop and network
  task as one machine whose steps are single loads, stores and exchanges, freely interleaved. `NetworkOperations`: what
  each operation of it achieves when it runs undisturbed, up to a whole connection.
- `NetworkSettings`, `NetworkManager`: the network registers and the stored profile, as a value and as the class.
- `CoreState`, `RegisterFile`: the whole core as one value, what a pass of the main loop does to it and what it sends.
- `HarpCore`: the class itself, with receive buffers, packet buffer and registers as arrays and fields updated in place;
  each method is proved against `CoreState` and the modules above.
- `CoreRuns`, `TaskRuns`: whole runs of the main loop and of the task around it, as values; `CoreTask`: the task itself,
  from `app_main` on. `BootedRuns`: what holds in every run from power-on. `HostView`: what the host on each transport
  reads of a run; `EventContents`: what the events in it say. `PasswordReplies`: what the device says about the Wi-Fi password.

The timer is any sequence of readings that does not decrease and stays below 2^63. Connection samples, flash outcomes,
the pieces in which bytes arrive and the interleaving of threads are arbitrary.

The code is followed throughout. Three things that the repository documents do not hold of it; each has a run that shows
it and the exact condition under which it holds:

- Reconnect backoff (docs/network-manager-operational-notes.md:50-63): a deadline that the core task computed for a failed
  transfer can be stored late, over that of a newer failure (`StaleSchedule.SomeRunRushes`,
  `StaleSchedule.SpacedIffNothingToStore`).
- `disconnect()` is documented in include/network_manager.h:21 as not erasing the configuration; it erases the stored
  profile unless flash fails (`NetworkManager.Manager.Disconnect`, `NetworkSettings.DisconnectForgetsIff`).
- docs/core-network-register-extension.md:27 and :171 have the password masked when read. A dump, the acknowledgement of a
  write and the errors for a mistyped READ and for a WRITE of the wrong type or length carry the register
  (`PasswordReplies.DumpDiscloses`, `AcknowledgementDiscloses`, `MistypedReadDiscloses`, `ShortWriteDiscloses`). A reply is
  all zeros if and only if it answers a well-typed READ or the register is blank (`PasswordReplies.MaskedIff`), as it is
  from power-on or an APPLY until the next password is written (`PasswordReplies.BlankUntilWritten`).

Four more are limits of the code that nothing documents otherwise, stated just as exactly:

- Realignment after synchronization happens on the first locked call only; a later pulse that moves the clock by part of
  a second leaves every later heartbeat off the whole second (`WholeSeconds.LaterSyncAlignsIff`,
  `WholeSeconds.LateSecondPacketMisaligns`).
- Pipelined frames are lost when one read crosses a frame end (`Framing.DeliversExactlyTheFramesIff`,
  `Commands.PipelinedReadIsLost`).
- The 32-bit deadline test is wrong from 2^31 us after the deadline until it wraps (`WrappedDeadline.TickIsRightIff`,
  `WrappedDeadline.LateTickIsMissed`).
- The host's test helper `build_read` asks for SERIAL_NUMBER with the wrong type (`Commands.HostReadIsUnderstoodIff`).

## Model

| member | source | states |
|---|---|---|
| Framing.FeedKeepsFramed | src/harp_core.cpp:217-268 | With no message pending the buffer holds less than a header or less than the message its header announces, for all 256 length bytes, so the reset at 255 and the zero-length return are never reached; a positive read always advances the buffer or delivers |
| Framing.PollsKeepFramed | src/harp_core.cpp:188-268 | The same for both transports over any run of polls |
| Framing.OnlyHeaderReadsDrop | src/harp_core.cpp:223-241 | Bytes are discarded only by a read issued with fewer than five bytes buffered, or for a length byte too small for a header |
| Framing.ReadSizes | src/harp_core.cpp:223-236 | How much every read asks for: the rest of the 255 bytes, or the rest of the message once its header is buffered, or nothing |
| Framing.FullStartsOver | src/harp_core.cpp:220-221 | A full buffer without a message starts over |
| Framing.BytesAreConserved | src/harp_core.cpp:212-268 | Over any run, bytes buffered and read are, in order, the bytes delivered, discarded with a delivery, and still buffered |
| Framing.DeliversExactlyTheFramesIff | src/harp_core.cpp:212-268 | A stream of well-formed frames comes out frame for frame if and only if no read crosses the end of a frame, whatever the splitting into reads |
| Framing.TransportsAreIsolated | src/harp_core.cpp:188-268 | Each transport delivers what its framer alone delivers for the reads issued to it, whatever partial frame sits in the other |
| Commands.AcceptedWriteIsComplete | src/harp_core.cpp:317-334 | A WRITE that passes the type and length checks has raw length num_bytes + 4, no uint8 wrap in payload_length or msg_size, and all its payload bytes inside the received frame |
| Commands.OneReplyPerCommand | src/harp_core.cpp:303-359 | Unmuted, a READ or WRITE has exactly one reply, on its own transport and about its own address; an accepted OPERATION_CTRL write has none if it sets MUTE_RPL, otherwise 26 if it sets DUMP and one if not; other types have none |
| Commands.AnswersAreReplies | src/harp_core.cpp:441-530 | No answer is an event, and every answer goes to the transport of its command alone |
| Commands.DumpListsTheMap | src/harp_core.cpp:637-646 | The dump names every mapped register once, in ascending order, and nothing else |
| Commands.DumpAnswer | src/harp_core.cpp:629-648 | A DUMP write that is not muting is answered with its acknowledgement and the dump, 26 replies |
| Commands.HostReadIsUnderstoodIff | examples/minimal_platformio/test/harp_tcp_test_utils.py:72-89 | For every address, the READ that build_read makes gets a READ reply if and only if the register exists and is not SERIAL_NUMBER, whose type the host table gets wrong |
| Commands.HostWriteIsUnderstood | examples/minimal_platformio/test/harp_tcp_test_utils.py:92-116 | A WRITE of the right size for any mapped register is well formed, passes the device checks and decodes to the payload it was built from |
| Commands.PipelinedReadIsLost | src/harp_core.cpp:223-268 | Two READs sent back to back and read at once: the first is delivered, the second discarded, for any two addresses |
| Replies.FrameShape | src/harp_core.cpp:454-519 | A reply frame is num_bytes + 12 bytes with the announced length, the fields and port 255 in place, the timestamp before the payload, and the sum of all bytes before it, cut to eight bits, at the end |
| Basics.ChecksumIsLowByteOfSum | src/harp_core.cpp:455-518 | The uint8_t that the device accumulates is the sum of the bytes modulo 256, which is what the host computes |
| WireFormat.ReplyOnTheWire | src/harp_core.cpp:454-519 | One reply in full, fourteen literal bytes: every field, the little-endian words and the sum |
| WireFormat.StampedArithmetic | include/harp_message.h:37-47 | The header arithmetic for stamped frames leads from every reply back to its payload |
| WireFormat.ReadOnTheWire | examples/minimal_platformio/test/harp_tcp_test_utils.py:72-89 | One READ in full, six literal bytes |
| WireFormat.WriteOnTheWire | examples/minimal_platformio/test/harp_tcp_test_utils.py:92-98 | One WRITE in full, seven literal bytes |
| WireFormat.KindsOnTheWire | include/harp_message.h:8-17 | The first byte of every reply is 1, 2, 3, 9 or 10 by its kind |
| WireFormat.PacketOnTheWire | src/harp_synchronizer.cpp:82-122 | One synchronization packet in full and the second it is heard as |
| WireFormat.CorruptionIsDetected | examples/minimal_platformio/test/harp_tcp_test_utils.py:183-189 | Whatever single byte of whatever frame is changed to whatever value, but for the length byte, the host reports a checksum mismatch |
| WireFormat.ParseOutcome | examples/minimal_platformio/test/harp_tcp_test_utils.py:153-191 | For every stream at all: exactly when recv_reply raises which error or returns a reply, and how much it takes |
| WireFormat.UnstampedIsRead | examples/minimal_platformio/test/harp_tcp_test_utils.py:169-181 | A frame without a timestamp is read back with its payload |
| Replies.ParseInvertsPrint | examples/minimal_platformio/test/harp_tcp_test_utils.py:153-191 | recv_reply recovers kind, address, type, timestamp and payload of every frame with at most 243 payload bytes, and goes on with what follows it |
| Replies.DecodedTime | examples/minimal_platformio/test/harp_tcp_test_utils.py:133-137 | The decoded time is at most the true time, less than 32 us behind it and monotone; the micro field is at most 31249 |
| Replies.HostSocket.RecvExact | examples/minimal_platformio/test/harp_tcp_test_utils.py:156-163 | Collects exactly n bytes however the stream is cut into receive calls, or reports the closed connection |
| Replies.HostSocket.RecvReply | examples/minimal_platformio/test/harp_tcp_test_utils.py:153-191 | The reply read in pieces is the one the whole stream starts with, and the rest of the stream is left |
| Replies.CommandShape | examples/minimal_platformio/test/harp_tcp_test_utils.py:92-116 | A command frame is well formed and the uint8 header arithmetic leads back to its payload |
| CoreState.HostReadsWhatWasSent | src/harp_core.cpp:478-529 | A host that keeps calling recv_reply on either transport recovers every frame routed to it, in order, and nothing else |
| CoreState.TimestampRegistersMatchTheFrame | src/harp_core.cpp:494-518 | A frame about TIMESTAMP_SECOND or TIMESTAMP_MICRO carries in its payload the very bytes of its own timestamp field |
| CoreRuns.HostReadsTheRegister | src/harp_core.cpp:338-342 | An unmuted READ built by the host leaves the state untouched and gets one reply, on the transport it came from, in which the host reads the register value (or the mask) and the Harp time |
| RegisterFile.OnlyTheAddressedRegister | include/harp_core.h:99-103 | At one and the same Harp time, an executed message changes the image of no register but the addressed one, apart from four named couplings (10 and 18; 11 and 10, 12; 36 and 33) |
| RegisterFile.OthersStayAsTheyWere | include/harp_core.h:99-103 | Whenever they are looked at, before and after: the same for every register but TIMESTAMP_SECOND and TIMESTAMP_MICRO, which each reply refreshes |
| RegisterFile.PlainWritesReadBack | src/harp_core.cpp:651-793 | What a READ shows after an accepted write: strings NUL-terminated, the port as sent, TIMESTAMP_OFFSET zero, names and RESET_DEV unchanged |
| RegisterFile.ControlWritesReadBack | src/harp_core.cpp:617-812 | The same for OPERATION_CTRL (all bits but DUMP as written), CLOCK_CONFIG (mode and lock bits as asked, capabilities kept) and NET_CONFIG (enable bits as written, status kept, APPLY not; zero after CLEAR) |
| RegisterFile.TimestampReadsBack | src/harp_core.cpp:582-602 | The same for TIMESTAMP_SECOND: at any later time the seconds written plus the whole seconds since, the fraction kept; the value itself within the second |
| RegisterMap.MapByAddress | include/core_registers.h:138-173 | Which addresses exist, and the size and type of each |
| RegisterMap.TypesFitSizes | include/core_registers.h:138-173 | A register of a 16-bit or 32-bit type holds exactly one value of it |
| RegisterMap.ImagesByAddress | include/core_registers.h:138-173 | Which part of the state is behind which address |
| RegisterMap.WordsByAddress | src/harp_core.cpp:494-509 | The timestamp and heartbeat registers are little-endian words of the time and the heartbeat |
| RegisterMap.ReadOnlyIsRefused | include/harp_core.h:324-346 | A WRITE of 0 to 7, 9, 16 to 19 or an address that does not exist is refused and changes nothing |
| RegisterMap.PlainIsAcknowledged | include/harp_core.h:315-342 | A WRITE of the right type and size of 12 to 15 or 32 to 36 is always acknowledged |
| RegisterMap.ClockIsSetIff | src/harp_core.cpp:582-602 | TIMESTAMP_SECOND is acknowledged if and only if the clock is unlocked |
| RegisterMap.ControlIsRefusedIff | src/harp_core.cpp:617-668 | OPERATION_CTRL refuses SPEED alone, is silent on bit 4 and dumps on bit 3; RESET_DEV refuses bits 1, 2, 6 and 7 |
| RegisterMap.MasksByAddress | src/harp_core.cpp:610-615 | A READ shows 0x40 for RESET_DEV, 64 zeros for NET_PASSWORD, and the register for every other |
| RegisterMap.StatusBits | src/harp_core.cpp:278-291 | NET_CONFIG status: bit 2 a usable profile, bits 3 and 4 the association, bit 5 the connection, no other bit |
| RegisterMap.PassShowsStatus | src/harp_core.cpp:137-147 | What NET_CONFIG shows in a pass: the enable bits it had and the status just sampled |
| RegisterMap.ResetBits | src/harp_core.cpp:676-692 | An accepted RESET_DEV empties the name on bit 3 and goes to STANDBY on bit 0 without bit 5 |
| RegisterMap.RestartIff | src/harp_core.cpp:651-686 | A pass ends in a restart if and only if it delivers a RESET_DEV write with bit 5 and without bits 1, 2, 6 and 7 |
| RegisterMap.NetConfigBits | src/harp_core.cpp:797-812 | NET_CONFIG: 0x40 with 0x01 stores the profile and blanks the password, 0x80 erases it all, otherwise only the enable bits change |
| Scheduler.DeadlineStaysAhead | src/harp_core.cpp:361-430 | For every run with calls at most 1 s apart the deadline stays in (T, T + 3 s] and every comparison falls in the 32-bit window, through mode changes, forced calls and realignments |
| WrappedDeadline.FirmwareRefinesUnbounded | src/harp_core.cpp:418-420 | In those runs the firmware with its 32-bit deadline has the same states and emits the same events at the same calls as the unbounded machine, through any number of wraps |
| Scheduler.WrappedTestAgrees | src/harp_core.cpp:418 | The signed 32-bit difference test equals T >= D whenever -2^31 <= T - D < 2^31, and just what it says within one wrap on either side |
| WrappedDeadline.TickIsRightIff | src/harp_core.cpp:418-420 | Less than one wrap from the deadline, a firmware tick equals the unbounded one if and only if the difference lies in the window |
| WrappedDeadline.LateTickIsMissed | src/harp_core.cpp:418-420 | From the boot state, a call 2^31 us late is not taken for due |
| WrappedDeadline.WrappingTouchesOnlyTheDeadline | src/harp_core.cpp:361-430 | However late the calls are, mode, latches, interval, lock and clock are those of the unbounded machine |
| Heartbeats.FirmwareBeatsOncePerSecond | src/harp_core.cpp:406-429 | Over any stretch that starts and stays ACTIVE, unmuted and enabled, whatever commands and sync pulses come in between, the firmware emits one event for each point D, D + 1 s, ... up to the last call of the main loop, each from the first such call at or after its point |
| Heartbeats.OneEventPerSecond | src/harp_core.cpp:406-429 | The same count and times for the unbounded machine |
| Heartbeats.BeatsAreDueTimes | src/harp_core.cpp:406-429 | In such a stretch, late or not, only calls of the main loop beat, exactly those that find a one-second deadline reached, and the deadline moves one second a beat |
| Heartbeats.BacklogDrainsOnePerCall | src/harp_core.cpp:418-429 | After a gap each call of the main loop consumes one overdue deadline and emits its event, whatever comes in between |
| WholeSeconds.HeartbeatsStayOnWholeSeconds | include/harp_core.h:248-255 | Between sync pulses every reachable deadline is a whole number of Harp seconds, across interval changes and TIMESTAMP_SECOND writes whose clock reads all differ |
| WholeSeconds.BootIsOnWholeSeconds | src/harp_core.cpp:114-115 | The constructor starts on a whole Harp second |
| WholeSeconds.FirstSyncAligns | src/harp_core.cpp:379-383 | The first locked call puts the deadline on a whole Harp second |
| WholeSeconds.LaterSyncAlignsIff | src/harp_core.cpp:379-383 | Once the first locked call is made, after a later pulse and any calls and commands that do not move the clock, the deadline is on a whole second of the new clock if and only if the pulse moved the clock by whole seconds |
| WholeSeconds.LateSecondPacketMisaligns | src/harp_core.cpp:379-383 | A state reached from boot and a second packet half a second late, after which no heartbeat is on a whole second, whatever follows |
| Scheduler.ClockRunsOnFromWrite | src/harp_core.cpp:593-600 | After an unlocked TIMESTAMP_SECOND write the Harp clock runs on from the seconds written with the fraction it had |
| Scheduler.ReachableStatesAreSane | src/harp_core.cpp:384-417 | In every reachable state the mode is not SPEED, DUMP is clear, ACTIVE implies the 1 s interval, and exactly one of LOCK and UNLOCK is set |
| Scheduler.BootIsSane | src/core_registers.cpp:19-26 | The power-on registers satisfy this, and the clock is unlocked |
| Scheduler.BootIsAhead | src/harp_core.cpp:114-115 | At power-on the first deadline is ahead of the clock, by at most 3 s |
| Scheduler.NoHostNotActive | src/harp_core.cpp:394-397 | An unforced call without a host never leaves the mode ACTIVE |
| ModeMachine.TickStep | src/harp_core.cpp:361-417 | One call of the main loop: a host that appears makes STANDBY ACTIVE, latched, on the 1 s interval; ACTIVE stays with a host and falls to STANDBY on the 3 s interval without; RESERVED and SPEED stay; all other bits stay |
| ModeMachine.FirmwareTickStep | src/harp_core.cpp:361-417 | The same for the firmware, however late the call |
| ModeMachine.OpCtrlStep | src/harp_core.cpp:617-649 | An OPERATION_CTRL write: SPEED nothing, otherwise every bit but DUMP, with the interval and latches of the mode it enters |
| ModeMachine.FirmwareOpCtrlStep | src/harp_core.cpp:617-649 | The same for the firmware |
| ModeMachine.ResetOutcome | src/harp_core.cpp:651-693 | RST_DEF puts the device in STANDBY and changes nothing else, unless another bit rejects or restarts |
| ModeMachine.TickDeadline | src/harp_core.cpp:418-420 | A deadline reached moves on by one interval of the mode entered |
| ModeMachine.RealignedDeadline | include/harp_core.h:248-255 | A realigned deadline is exactly one interval after the start of the current Harp second |
| ModeMachine.ExactlyOneActivation | src/harp_core.cpp:390-410 | A connection that finds STANDBY unlatched activates the device exactly once, at its first call, in both machines |
| ModeMachine.ModeFollowsLastRequest | src/harp_core.cpp:384-417 | Once a connection is latched, over any run, the mode is the one last asked for, and stays when none is |
| ModeMachine.ModeOfAConnection | src/harp_core.cpp:384-417 | A whole connection from STANDBY: ACTIVE, and then the mode last asked for |
| Scheduler.OneActivationPerConnection | src/harp_core.cpp:390-410 | Over an unbroken stretch with a host the automatic STANDBY to ACTIVE transition happens at most once, and not at all once latched |
| WrappedDeadline.FirmwareActivatesOncePerConnection | src/harp_core.cpp:390-410 | The same for the firmware, however late its calls |
| Scheduler.ClockConfigStep | src/harp_core.cpp:708-741 | CLOCK_CONFIG bit by bit: mode bits from the host, LOCK over UNLOCK, capability bits kept |
| ModeMachine.ClockConfigOutcome | src/harp_core.cpp:708-741 | The same in literal bits, with the unused bits kept |
| Scheduler.LockFollowsLastRequest | src/harp_core.cpp:724-739 | After any history the lock is the one last asked for, or the initial one; capability bits never change |
| Scheduler.LockedClockIsNotMoved | src/harp_core.cpp:582-591 | In a locked stretch without sync pulses no command changes the Harp offset in use |
| SyncDecoding.DecodeInvertsPrinter | src/harp_synchronizer.cpp:76-112 | Any list of seconds printed as AA AF and four little-endian bytes with AA-free filler decodes to that list with 1 added modulo 2^32, whatever the payload bytes |
| SyncDecoding.DecodeAppend | src/harp_synchronizer.cpp:76-112 | Decoding does not depend on where the byte stream is cut |
| SyncDecoding.FiveBytesResynchronize | src/harp_synchronizer.cpp:82-110 | Five AA-free bytes lead from every reachable state to RECEIVE_HEADER_0 with at most one bogus second |
| SyncDecoding.FourBytesAreNotEnough | src/harp_synchronizer.cpp:82-110 | Four can leave it inside a packet |
| SyncDecoding.NoSecondWithoutPacket | src/harp_synchronizer.cpp:82-111 | Whatever was heard since the start, a second is reported only by the last byte of AA AF and four bytes, and is the second they name |
| SyncDecoding.JoinsMidStream | src/harp_synchronizer.cpp:76-112 | A receiver in any state that first hears five filler bytes reads every later packet |
| SyncDecoding.CallbackDecodes | src/harp_synchronizer.cpp:76-129 | What one interrupt reports and what it leaves queued decode as what was queued; it stops early only for a complete packet |
| SyncDecoding.ListenDecodes | src/harp_synchronizer.cpp:57-129 | However the bytes are cut into interrupts, the seconds reported and the bytes still queued decode as the whole stream |
| SyncDecoding.ListenInvertsPrinter | src/harp_synchronizer.cpp:57-129 | A fresh receiver handed a printed stream in any pieces reports the seconds printed plus one, in order, all of them once its queue is empty |
| Synchronizer.HarpSynchronizer.UartRxCallback | src/harp_synchronizer.cpp:57-129 | One interrupt is Callback: at most one packet, whose second sets the clock to the time it names and is added to those applied; consumed and queued bytes stay the bytes arrived, and the seconds applied the decode of those consumed |
| Synchronizer.HarpSynchronizer.Accept | src/harp_synchronizer.cpp:82-111 | One received byte moves the FSM fields as the pure decoder moves its state |
| Synchronizer.HarpSynchronizer.TakeUntilTimestamp | src/harp_synchronizer.cpp:76-112 | The receive loop stops at an empty queue or a complete timestamp and loses nothing |
| Synchronizer.HarpSynchronizer.SetHarpTime | include/harp_synchronizer.h:56-57 | Afterwards the Harp clock shows the given time at t |
| SyncDecoding.ClockAfterPulse | src/harp_synchronizer.cpp:117-122 | After a pulse the Harp clock shows the announced second less 582 us, plus the time since |
| NetworkProtocol.SocketsAreConserved | src/network_manager.cpp:334-361 | Over every interleaving of the three threads each socket is in exactly one place or was closed exactly once, and the publishing store never overwrites a live socket (which sockets are closed, NetworkOperations says) |
| NetworkProtocol.StepStaysInPlace | src/network_manager.cpp:334-363 | Every atomic step finds its target local or cell empty, so none loses a socket |
| NetworkProtocol.InitIsInPlace | src/network_manager.cpp:27-41 | The initial state satisfies the invariants |
| NetworkOperations.ConnectSucceeds | src/network_manager.cpp:356-360 | A connection that is made is published, marked and kept, and the reconnect policy starts afresh |
| NetworkOperations.AttemptConnects | src/network_manager.cpp:333-361 | A whole attempt from the moment the task is woken: the published socket is the one just opened, only the old one was closed, the connection is marked, nothing is pending |
| NetworkOperations.GatePasses | src/network_manager.cpp:342-349 | The task goes on to an attempt when there are APPLY, an association, an address, TCP and no wait left |
| NetworkOperations.GateHolds | src/network_manager.cpp:342-349 | Without all of that it goes back to waiting and changes nothing |
| NetworkOperations.ConnectFails | src/network_manager.cpp:361-363 | A refused attempt closes its socket and schedules the next one min(500 * 2^n, 8000) ms later, if one is wanted |
| NetworkOperations.TransferFails | src/network_manager.cpp:496-542 | A failed read or write closes the published socket, marks the connection lost and schedules a reconnect |
| NetworkOperations.TransferWorks | src/network_manager.cpp:496-520 | A transfer is tried only on a published socket, and one that works changes nothing |
| NetworkOperations.Waits | src/network_manager.cpp:317-331 | The task is woken by a notification, or by the end of its wait if a reconnect is pending, and by nothing else |
| NetworkOperations.AssociationLost | src/network_manager.cpp:252-258 | Losing the association closes the published socket and drops a pending reconnect |
| NetworkOperations.AddressObtained | src/network_manager.cpp:270-276 | An address marks the association and wakes the network task |
| NetworkOperations.ApplyCommits | src/network_manager.cpp:424-479 | apply() takes the profile, enables reconnecting afresh and commits to APPLY if the station could be configured |
| NetworkOperations.ApplySkips | src/network_manager.cpp:416-421 | Without Wi-Fi it stops reconnecting and no more |
| NetworkOperations.DisconnectCommands | src/network_manager.cpp:483-490 | disconnect() commands it, stops reconnecting and wakes the network task |
| NetworkOperations.DropCloses | src/network_manager.cpp:333-340 | The network task under DISCONNECT closes the published socket and forgets every reconnect |
| NetworkOperations.ApplyConnects | src/network_manager.cpp:409-479 | apply(), the address and the network task, one after the other, leave a published socket just opened, whatever went before |
| NetworkOperations.AttemptIffProfileAllows | src/network_manager.cpp:342-344 | With Wi-Fi enabled, the attempt that follows is made if and only if the applied profile enables TCP (bit 1) and names a server |
| NetworkOperations.NothingBeforeApply | src/network_manager.cpp:27-41 | From power-on, over every interleaving, no socket is opened and no connection tried until Wi-Fi is first applied |
| NetworkOperations.FirstApplyConnects | src/network_manager.cpp:409-479 | The first apply after power-on connects with the first socket ever, and nothing has been closed |
| ManualDisconnect.ManualDisconnectWins | src/network_manager.cpp:333-340 | Once disconnect() has made its stores and a DISCONNECT iteration ends, there is no socket, no connection, nothing pending and no connect in progress, until an apply() makes its last store |
| ManualDisconnect.DisconnectTakesEffect | src/network_manager.cpp:483-490 | From the notification that ends disconnect(), whatever is in flight, 32 steps of the network task reach that state |
| ManualDisconnect.RunStaysOrderly | src/network_manager.cpp:218-227 | The invariant behind it, over every run: only a schedule past its command check raises the pending flag |
| ManualDisconnect.InitIsOrderly | src/network_manager.cpp:27-41 | It holds initially |
| ReconnectBackoff.DelayIsCappedDoubling | src/network_manager.cpp:202-209 | The delay is 500 ms doubled per attempt and capped at 8 s for every attempt; the cap on the shift never shows |
| ReconnectBackoff.TotalDelayClosedForm | src/network_manager.cpp:202-209 | n failures schedule 500 * (2^n - 1) ms for n <= 4 and 7500 + 8000 * (n - 4) ms beyond |
| ReconnectBackoff.WaitReachesDeadline | src/network_manager.cpp:319-331 | A wait that runs its full length ends at or after the deadline, less than 1 ms late |
| ReconnectBackoff.AttemptsAreSpaced | src/network_manager.cpp:342-363 | While attempts keep failing, the attempt after the k-th consecutive failure starts at least min(500 * 2^(k-1), 8000) ms after it, whatever notifications arrive |
| StaleSchedule.SpacedIffNothingToStore | src/network_manager.cpp:229-233 | From a lost connection this holds in every run if and only if the core task has no reconnect deadline of a failed transfer still to store; otherwise its late store overwrites a newer deadline |
| StaleSchedule.SomeRunRushes | src/network_manager.cpp:229-233 | The run that shows it: two attempts with no time between them |
| NetworkSettings.StoredIsLastProfile | src/network_manager.cpp:409-442 | Over any history of writes and reboots without flash faults the stored profile is that of the last APPLY with ENABLE_WIFI not accompanied or followed by CLEAR |
| NetworkSettings.RebootShowsLastProfile | src/network_manager.cpp:398-406 | After a reboot SSID, IP, port and enable bits are those of that profile, the password register is zero and the slot is unchanged; without a profile the registers are the defaults |
| NetworkSettings.DisconnectForgetsIff | src/network_manager.cpp:483-490 | After an apply and a disconnect a reboot brings the profile back if and only if the erase has failed; otherwise it shows the defaults |
| NetworkSettings.Changed | src/harp_core.cpp:760-793 | In every state reached by writes and reboots, with or without flash faults, the string registers and stored strings end in NUL |
| NetworkSettings.DefaultRegisters | src/core_registers.cpp:34-39 | Without a profile: empty strings, port 9999, nothing enabled |
| NetworkManager.Manager.Apply | src/network_manager.cpp:409-442 | The registers, the working copy and the slot change as Applied says: nothing without ENABLE_WIFI, otherwise the working copy is the snapshot of the registers before, the password is consumed and the profile saved |
| NetworkManager.Manager.Disconnect | src/network_manager.cpp:483-490 | Only the stored profile changes: the slot is empty if the erase succeeds |
| NetworkManager.Manager.Restore | src/network_manager.cpp:398-406 | Boot restores and re-applies the stored profile as Booted says |
| NetworkManager.Manager.ApplyCfgToRegs | src/network_manager.cpp:72-83 | The registers take the profile |
| NetworkManager.Manager.LoadCfg | src/network_manager.cpp:116-168 | Only a readable entry of the current version is returned, with its strings terminated |
| NetworkManager.OnlyVersionOne | src/network_manager.cpp:155-161 | Only an entry of version 1 is a profile |
| CoreRegisters.RegValues.constructor | src/core_registers.cpp:9-40 | Power-on values of every register |
| CoreRegisters.RegValues.Image | include/core_registers.h:142-172 | Every mapped register has a memory image of exactly its table size |
| HarpCore.HarpCore.Init | src/harp_core.cpp:57-116 | A new core is ready, its state is the scheduler boot state and the restored settings, nothing is buffered or sent |
| HarpCore.HarpCore.ProcessTransportInput | src/harp_core.cpp:212-268 | Polling a transport does to buffer, index, pending message and source exactly what Feed says, and nothing while a message is pending |
| HarpCore.HarpCore.PollTransports | src/harp_core.cpp:146-147 | Both polls together are Poll: TCP first, and a completed TCP message takes the turn of CDC |
| HarpCore.HarpCore.PutBytes | src/harp_core.cpp:486-518 | The serializing loop: bytes, checksum and CDC stream advance together |
| HarpCore.HarpCore.PrintFrame | src/harp_core.cpp:454-524 | The packet built byte by byte is the reply frame, checksum included, and the CDC stream got the same bytes |
| HarpCore.HarpCore.SendHarpReply | src/harp_core.cpp:441-530 | Muted replies change nothing; otherwise one frame, with the timestamp registers refreshed before the payload is read, to both transports for an event and to the source alone for a reply |
| HarpCore.HarpCore.Transmit | src/harp_core.cpp:478-529 | What each transport got is the concatenation of the frames routed to it |
| HarpCore.HarpCore.Reply | include/harp_core.h:116-121 | The frame tells the type and value of its register, the Harp time within the call, and leaves the state alone |
| HarpCore.HarpCore.UpdateNextHeartbeat | include/harp_core.h:248-255 | The 32-bit realignment is the unbounded one modulo 2^32, also when the Harp time has wrapped below zero |
| HarpCore.HarpCore.Latch | src/harp_core.cpp:368-383 | The handled latches and the first realignment are those of Observe |
| HarpCore.HarpCore.SwitchMode | src/harp_core.cpp:384-417 | The mode switch, with its fall-through, and the interval are those of EnterMode |
| HarpCore.HarpCore.CheckDeadline | src/harp_core.cpp:418-429 | The wrapped comparison, the step of the deadline and the event are those of Check |
| HarpCore.HarpCore.UpdateState | src/harp_core.cpp:361-430 | One call is exactly one firmware step of the scheduler, emits exactly its event, and touches nothing else |
| HarpCore.HarpCore.Read | src/harp_core.cpp:576-615 | Read handlers answer with the register, but for RESET_DEV (0x40) and NET_PASSWORD (zeros) |
| HarpCore.HarpCore.SetHarpTime | include/harp_core.h:175-178 | Both offsets are set, each from its own clock reading |
| HarpCore.HarpCore.WriteTimestampSecond | src/harp_core.cpp:582-602 | Locked: an error and no change; unlocked: the clock and the deadline move as the scheduler says, from four ordered clock readings |
| HarpCore.HarpCore.WriteOperationCtrl | src/harp_core.cpp:617-649 | SPEED is refused untouched; otherwise the forced mode, its event, the new register without DUMP, the acknowledgement and the dump |
| HarpCore.HarpCore.DumpRegisters | src/harp_core.cpp:637-646 | Both loops together send the dump, each frame telling its register |
| HarpCore.HarpCore.WriteResetDev | src/harp_core.cpp:651-693 | Rejected bits change nothing; otherwise acknowledged before the name, the mode or the restart |
| HarpCore.HarpCore.WriteClockConfig | src/harp_core.cpp:708-743 | The bit sequence computes NextClockConfig and changes no other state |
| HarpCore.HarpCore.WriteTimestampOffset | src/harp_core.cpp:745-751 | TIMESTAMP_OFFSET becomes zero |
| HarpCore.HarpCore.WriteIgnored | src/harp_core.cpp:695-706 | DEVICE_NAME and SERIAL_NUMBER are acknowledged unchanged |
| HarpCore.HarpCore.WriteNetSsid | src/harp_core.cpp:760-767 | The register takes the payload and stays NUL-terminated |
| HarpCore.HarpCore.WriteNetPassword | src/harp_core.cpp:769-776 | The same for the password |
| HarpCore.HarpCore.WriteNetServerAddr | src/harp_core.cpp:778-785 | The same for the server address |
| HarpCore.HarpCore.WriteNetServerPort | src/harp_core.cpp:787-793 | The port takes the payload |
| HarpCore.HarpCore.WriteNetConfig | src/harp_core.cpp:797-812 | Enable bits from the host, status bits kept, then APPLY, then CLEAR |
| HarpCore.HarpCore.WriteRegister | include/harp_core.h:316-347 | For every mapped address: the new state, the event and the replies that Handled calls for |
| HarpCore.HarpCore.HandleBufferedMessage | src/harp_core.cpp:303-359 | For every delivered frame: the state becomes Executed and the replies are Answers, each telling its register |
| HarpCore.HarpCore.RefreshNetConfigStatusBits | src/harp_core.cpp:278-291 | Status bits follow the sampled flags and the two strings; enable bits are kept |
| HarpCore.HarpCore.Run | src/harp_core.cpp:137-186 | One pass receives what the two framers deliver, turns the state into Passed, sends the tick event and then the answers, and ends with no message pending unless the chip restarts |
| CoreTask.Interrupt | src/harp_synchronizer.cpp:57-129 | The sync interrupt moves the Harp clock exactly when the receiver completes a packet, by the offset that packet names, and otherwise not at all; every byte arrives |
| CoreTask.RunCoreTask | examples/minimal_platformio/src/main.cpp:37-44 | Turn by turn, any sequence of arrivals and sync bytes is accounted for: one pass a loop turn, receiving what the framers deliver there, one interrupt a sync turn, reporting what the receiver completes there, and every state, reply and clock reading is the one the specification gives |
| CoreTask.AppMain | examples/minimal_platformio/src/main.cpp:48-79 | From any flash content, with or without the receiver, what app_main starts is a run from the power-on state |
| BootedRuns.EveryStateIsSound | src/harp_core.cpp:57-186 | In every state reached from power-on, however late the calls: the mode machine is sane, the clock is unlocked unless the last request was to lock it, neither framer is stuck, and every string register and stored string ends in NUL |
| BootedRuns.EveryTimelyStateIsOnTime | src/harp_core.cpp:361-430 | From power-on, with a call a second, every state is that of the unbounded machine, the deadline is never behind, and without a receiver every deadline is a whole Harp second |
| BootedRuns.FlashSinceBoot | src/network_manager.cpp:398-442 | From power-on without flash faults, flash holds the profile last applied and not cleared, or the one it held |
| BootedRuns.HostTurnsActive | src/harp_core.cpp:384-417 | From power-on with a host there, the device is ACTIVE on the 1 s interval from its first pass on, or in the mode last asked for |
| BootedRuns.PowerOnRegisters | src/core_registers.cpp:9-40 | What the registers show at power-on, byte for byte |
| HostView.HostReadsTheAnswers | src/harp_core.cpp:137-359 | Command to reply: a host that sends whole frames, none crossed by a read, parses on its transport exactly the answers to its frames, in order, each under the mute and lock bits it met, and nothing else but events |
| HostView.RepliesAreAnswers | src/harp_core.cpp:137-359 | In any run, aligned or not, the replies to a transport are the answers to the frames dispatched from it, in order |
| HostView.HostReadsOneEventPerSecond | src/harp_core.cpp:406-429 | In a timely run that starts and stays ACTIVE, unmuted and enabled, the host on either transport reads one event for each point D, D + 1 s, ... up to the last pass, sent in the first pass at or after it |
| HostView.EventsOnTheWire | src/harp_core.cpp:406-429 | In any run, timely or not, the periodic events sent are those the scheduler emits, at the same calls |
| EventContents.HeartbeatBits | src/harp_core.cpp:293-301 | HEARTBEAT: bit 0 is ACTIVE, bit 1 is synchronized, there is no other |
| EventContents.TickShowsHeartbeat | src/harp_core.cpp:137-143 | After the first part of a pass its two bytes say just that |
| EventContents.PassShowsHeartbeat | src/harp_core.cpp:137-186 | So they do after the whole pass, unless it carries out a write of OPERATION_CTRL or RESET_DEV |
| EventContents.ForcedRefreshIff | src/harp_core.cpp:418-429 | A write that changes the mode refreshes HEARTBEAT only if it finds the deadline reached and leaves the device ACTIVE and unmuted; otherwise the register keeps its value until the next pass |
| EventContents.ReportedRegister | src/harp_core.cpp:421-428 | ACTIVE and unmuted, an event is about 18 if bit 2 is set, or else about 8 if bit 7 is; otherwise there is none |
| EventContents.PassReports | src/harp_core.cpp:406-429 | Every event of every pass, forced ones included, reports that register; one about HEARTBEAT carries 1, or 3 when synchronized |
| EventContents.HostReadsTheEnabledEvent | src/harp_core.cpp:421-428 | Over any run every event the host reads on either transport is about HEARTBEAT, with 1 or 3, while HEARTBEAT_EN is set, and about TIMESTAMP_SECOND while it is clear |
| PasswordReplies.MaskedIff | src/harp_core.cpp:303-359 | For every state and command, a frame about NET_PASSWORD is all zeros if and only if it answers a well-typed READ or the register is blank afterwards |
| PasswordReplies.MistypedReadDiscloses | src/harp_core.cpp:317-328 | The error for a READ of NET_PASSWORD as U16 carries the password |
| PasswordReplies.ShortWriteDiscloses | src/harp_core.cpp:329-334 | So does the error for a WRITE of any wrong length |
| PasswordReplies.AcknowledgementDiscloses | src/harp_core.cpp:769-776 | The acknowledgement of a WRITE repeats the password written |
| PasswordReplies.DumpDiscloses | src/harp_core.cpp:637-646 | The frame of the dump about NET_PASSWORD carries the password |
| PasswordReplies.MaskedInARunIff | src/harp_core.cpp:753-776 | In every run, such a frame is all zeros if and only if its pass serves a well-typed READ or no non-blank password written is left unconsumed by an APPLY |
| PasswordReplies.BlankUntilWritten | src/network_manager.cpp:409-442 | From a blank register until a password is written, no frame shows anything but zeros about it |
| PasswordReplies.ApplyBlanks | src/network_manager.cpp:409-442 | An accepted APPLY with ENABLE_WIFI blanks the register |
| PasswordReplies.BlankSincePowerOn | src/network_manager.cpp:398-406 | Power-on blanks it: from there until a password is written only zeros are shown |
| CoreRuns.SchedulerInsideTheCore | src/harp_core.cpp:137-186 | The scheduler inside any run of the core is the scheduler alone on the events its messages stand for |
| TaskRuns.EveryMessageIsAnswered | src/harp_core.cpp:137-186 | In every run of the core task each message is answered in its own pass with exactly the replies its bytes and the mute and lock bits call for, and nothing else is answered |
| TaskRuns.FramesAreDispatchedIff | src/harp_core.cpp:188-268 | In every run the frames a host sends on one transport are dispatched each once, in order and byte for byte, if and only if no read crosses a frame end, whatever the other transport brings |
| CoreRuns.WireDrivenRunsAreSane | src/harp_core.cpp:361-430 | In every wire-driven run, however late, the mode machine is sane and the lock is the one last asked for |
| CoreRuns.TimelyRunsAreUnbounded | src/harp_core.cpp:361-430 | A core whose loop runs once a second is, state for state, the unbounded machine, and never behind its deadline |
| CoreRuns.LockedCoreKeepsItsClock | src/harp_core.cpp:582-591 | While the clock stays locked no message moves it |
| TaskRuns.HeartbeatsOfARunAreWhole | src/harp_core.cpp:582-602 | A timely run of the core task without sync packets keeps its heartbeats on whole Harp seconds |
| TaskRuns.SecondsAreHeard | src/harp_synchronizer.cpp:57-129 | The seconds that the interrupts of a run report are those the receiver makes of the bytes on the sync line |
| TaskRuns.ClockFollowsLastPacket | src/harp_synchronizer.cpp:117-125 | After any run the Harp clock is the one named by the last packet decoded, as long as TIMESTAMP_SECOND was not written since |
| TaskRuns.ClockFollowsTheStream | src/harp_synchronizer.cpp:57-129 | Handed a printed stream in any pieces, among any commands, a device that has taken it all ends with the Harp clock that the last packet of the stream named |
| CoreRuns.SettingsInsideTheCore | src/harp_core.cpp:753-812 | The network settings inside any run follow the writes to the network registers and nothing else |
| CoreRuns.FlashHoldsTheLastProfile | src/network_manager.cpp:440-442 | Over any such run without flash faults, flash holds the profile last applied and not cleared |

## Left out

- ESP-IDF, FreeRTOS, TinyUSB, lwIP, NVS and UART drivers: their results are arbitrary values; a TCP or CDC driver that drops bytes it was handed is not modelled.
- Data races on the plain variables `s_cfg` and `s_cmd`, weak memory orders, and descriptor reuse between a load of the socket cell and the call on it: steps are sequentially consistent and sockets are distinct instances.
- Sync interrupts inside a pass of the main loop: they take effect between passes, so an offset is never seen half written.
- UART FIFO overflow: every received byte reaches the queue.
- HarpCApp and its registers: runs are those of core-only firmware; an unmapped address has the specification of register 0, as the base class returns it.
- The restart itself: a run ends where esp_restart is called, with the acknowledgement already sent.
- Wi-Fi association: apply() succeeds or fails at station configuration, and the events that follow come in any order.
- The status bits after CLEAR in NET_CONFIG: they are zero until the next pass recomputes them, as in the code; that the flags behind them agree with the socket is not claimed, because a write failure between publishing a socket and setting s_tcp_connected breaks it.
- Inbound checksums: the firmware does not check them, so nothing is claimed about them.
- Socket timeouts of the host script; its retry and test drivers.
- Visual indicators, logging, USB descriptors, the deprecated constructors, the generic write handler (no table entry uses it), harp_time_s, set_uid, and the field disconnect_start_time_us_ (written, never read).
- ReconnectBackoff.AttemptsAreSpaced: needs an idle core task, or one past its own store, because of the run in StaleSchedule.SomeRunRushes; a tick is 1 ms, as examples/minimal_platformio/sdkconfig.esp32-s3-devkitc-1:2329 configures it; and the 32-bit attempt counter must not have wrapped.
- StaleSchedule.SpacedIffNothingToStore: starts where the network task is about to wait with nothing pending and no failure counted, and no apply or disconnect is under way.
- NetworkManager.Manager.Apply: the flags and the station calls of apply() are steps of NetworkProtocol, not of this class.
- WholeSeconds.HeartbeatsStayOnWholeSeconds: covers clocks that have not been set more than 2^32 s ahead of the timer, which is all that TIMESTAMP_SECOND can do, and stretches without sync pulses, which WholeSeconds.LaterSyncAlignsIff covers.
- WrappedDeadline.FirmwareRefinesUnbounded: needs a call at least once a second; the exact reach of one call is WrappedDeadline.TickIsRightIff.
