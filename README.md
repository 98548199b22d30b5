# REXUS PIOneERS Pi flight software — a Dafny model

This project models the sequential core of the Raspberry Pi flight software
of the PIOneERS experiment on the REXUS sounding rocket. It covers four parts.

- **The telemetry packet codec** (`src/comms/packet.h`). A packed 24-byte
  frame: sync, COBS overhead byte, ID, 16-bit index, 16 data bytes, CRC16,
  end-of-packet byte. `lengthByID` gives the data length for an ID. `pack`
  fills the frame, zero-pads the data, checksums the 19 bytes from the ID
  through the data, and COBS-stuffs the 23 bytes from the overhead byte
  through the end byte in place. `unpack` undoes the stuffing, checks the
  CRC and copies the fields out. `Packets.Pack` uses `lengthByID` as
  written (`Packets.LengthByIdAsWritten`, which gives ID_DATA4 no length);
  `Packets.Frame` and the round-trip lemmas use the corrected table
  `Packets.LengthById`, and the two agree wherever `pack` succeeds.
- **Pi 2's mission sequencer** (`src/raspi2.cpp`):
  - the five-sample active-low debounce `poll_input`;
  - the ground-command switch that runs before lift-off;
  - the phase chain `main` → `LO_SIGNAL` → `SOE_SIGNAL` → `SODS_SIGNAL`, including the timed burn-wire pulse;
  - the abort path `signal_handler`.
- **The IMU producer** (`src/RPi_IMU/RPi_IMU.cpp`):
  - assembly of register bytes into 16-bit words;
  - the `readRegisters` buffer layout;
  - the big-endian timestamp;
  - the split of each 22-byte sample into two packets;
  - the packet index and the backup-file names;
  - the child's measurement loop, with its exit codes;
  - `status`, and the SIGTERM-to-SIGKILL escalation of `stopDataCollection`.
- **The log time stamp** (`src/logger/logger.cpp`): `time(Timer)` splits an
  elapsed count into `hr:min:sec:rem`.

The model is written in the source's own style, file by file.

- Value computations are functions with lemmas: the length table, the byte
  layouts, the index, the names, the stamp.
- Code that updates state step by step is imperative Dafny.
  - `pack` and `unpack` work on a `Packet` class over a 24-byte `array`.
  - `poll_input` is a counting loop.
  - The phase functions are `while` loops inside a `Pi2` class. Its fields
    are the environment still to be read, `flight_mode` and a trace of
    emitted effects.
  - The IMU object is a class. Its fields are the bus state, the child's
    pid, the pipe state, the signals sent, the packets written and the
    files opened.

The environment enters as finite input streams or as call results:

- `digitalRead` levels, `millis` values, Ethernet messages, ImP pipe chunks;
- I2C selection results and register blocks;
- elapsed times;
- pipe-write outcomes, fork and waitpid results.

The mission's outward effects are recorded as events. A monitor (`Mission.Step`, `Mission.Monitor`)
states what the mission allows next:

- a phase is entered only from the one before it, and only right after its own line polls asserted;
- commands are taken only before lift-off;
- the burn wire goes high once, and goes low once, only after a clock reading more than 6000 ms past the first;
- nothing follows an exit.

Every method of `Pi2` keeps its trace accepted by that monitor. Lemmas then
derive the mission properties from acceptance.

Each loop and phase of `raspi2.cpp` also has a reference function of the
input streams: `AwaitFrom` (the loop before lift-off), `Await` (the SOE and
SODS waits), `BurnLoop` and `Pulse` (the burn wire), `SoeRun`, `LoRun`,
`Operation` and `Program`. The methods are proved to append exactly the
events these functions give and to leave exactly the streams they leave.
Lemmas about the functions relate the trace to the inputs: which commands
from the inbox were received, which readings were polled, and why the
burn wire was released.

`Protocol::crc16Gen`, `Protocol::cobsEncode` and `Protocol::cobsDecode`
come from protocol.h, and protocol.h is not part of this model. The model
uses reference definitions instead, and they are not taken from the
repository.

- `Crc16.Crc` is an MSB-first CRC16 with initial value 0 and a
  caller-given polynomial. The codec relies only on it being a function of
  the 19 bytes and the polynomial 0x724E.
- `Cobs` implements Consistent Overhead Byte Stuffing (Cheshire and Baker,
  IEEE/ACM Transactions on Networking, 1999) over a span whose first byte
  is the overhead slot and whose last byte receives the 0 end marker. Its
  contracts are proved: decoding inverts encoding, the decoder accepts
  only canonical encodings, and an encoded span has no zero before its end
  slot.

Details of the code the model follows:

- `poll_input` returns true when fewer than three of five samples are high, so {1,0,0,0,0} is asserted and {1,1,0,1,1} is not.
- The burn-wire pulse lasts until `millis() - start` exceeds 6000 ms, not 10 000 ms.
- The pulse does not depend on `flight_mode`. The flag is read at start-up and never consulted.
- `signal_handler` does not drive the burn wire low.
- The COBS span runs 23 bytes, from the overhead byte through the end-of-packet byte, not through the checksum only.
- Ground commands arrive as text messages switched on their first two characters, not as command packets.
- There is no producer-liveness tick or respawn in `raspi2.cpp`.

## Model

| member | source | states |
|---|---|---|
| Packets.LengthByIdAsWritten | src/comms/packet.h:129-151 | lengthByID as written, hexadecimal case label included; every result is 0, 10, 12 or 16 |
| Packets.LengthById | src/comms/packet.h:129-151 | lengthByID with the fourth label corrected to ID_DATA4; every result is 0, 10, 12 or 16 |
| Packets.LengthByIdTable | src/comms/packet.h:129-151 | every id with a top bit set gets 16; below 0x40 only 0x10, 0x20 and 0x22 get 12, 0x11 gets 10, every other id 0 |
| Packets.DeadCaseLabel | src/comms/packet.h:144 | as written, ID_DATA4 (0x22) and 0x21 both get 0; the corrected table gives ID_DATA4 12 and agrees with the written one on every other id |
| Packets.DataLengths | src/comms/packet.h:14-21 | in the corrected table the eight named ids get 12, 10, 12, 12 (data) and 16 (message, status); in the table as written ID_DATA4 gets 0 and the other seven the same |
| Packets.Padded | src/comms/packet.h:81-82 | the data field is always 16 bytes: the caller's first n bytes, then zeros |
| Packets.CrcRange | src/comms/packet.h:85 | the checksummed range is 19 bytes: ID, index, data |
| Packets.Frame | src/comms/packet.h:72-91 | the frame pack produces, over the corrected table, is 24 bytes |
| Packets.FrameLayout | src/comms/packet.h:33-45 | a packed frame starts and ends with 0 and has no other zero byte; destuffing its span gives the ID, the index, the padded data and their CRC, in that order |
| Packets.UnpackFrame | src/comms/packet.h:106-120 | unpacking what pack produced succeeds, with the same id and index and the caller's data zero-padded to 16 bytes |
| Packets.UnpackAccepts | src/comms/packet.h:108-117 | a frame whose span destuffs to an ID, an index, data and their CRC unpacks to exactly those fields |
| Packets.FrameIgnoresExcess | src/comms/packet.h:81 | the frame depends on the caller's buffer only through its first lengthByID(id) bytes |
| Packets.Packet.constructor | src/comms/packet.h:35-43 | a packet is 24 bytes of memory holding the given bytes |
| Packets.Pack | src/comms/packet.h:72-91 | over the table as written: -1 exactly when lengthByID as written is 0 (so always for ID_DATA4), with the packet unchanged; otherwise 0, the two tables agree on the id, and the packet holds the frame for (id, index, data) with sync and end byte 0 |
| Packets.WriteBody | src/comms/packet.h:77-85 | before stuffing: sync 0, then ID, index, padded data and the CRC of those 19 bytes at offsets 2..22 |
| Packets.WriteHeader | src/comms/packet.h:77-79 | sync 0 at offset 0, ID and little-endian index at 2..4 |
| Packets.WriteData | src/comms/packet.h:81-82 | offsets 5..20 hold the first n caller bytes, then zeros; the header is untouched |
| Packets.StuffBody | src/comms/packet.h:87 | cobsEncode over the 23 bytes from the overhead byte: the sync byte, then the stuffed span |
| Packets.Unpack | src/comms/packet.h:106-120 | unpack fails with the COBS code exactly when the span does not destuff; a success yields 16 data bytes and the ID byte of the destuffed frame |
| Packets.UnpackPacket | src/comms/packet.h:106-120 | return code 0, -1 (COBS failure) or -2 (CRC mismatch), as Unpack gives; id, index and the 16 data bytes are written only on 0 and are the packet's destuffed fields, whose checksum matched the CRC of the 19 bytes; a COBS failure leaves the packet unchanged, otherwise it is left destuffed |
| Crc16.CrcLeadingZero | src/comms/packet.h:85 | with initial value 0, a leading zero byte does not change the checksum (the reference CRC of the 19 bytes) |
| Cobs.FirstZero | src/comms/packet.h:87 | the first zero of a block, or its length; the byte there is 0 |
| Cobs.Stuff | src/comms/packet.h:87 | stuffing adds exactly one byte |
| Cobs.Unstuff | src/comms/packet.h:108 | a successful destuffing is one byte shorter |
| Cobs.EncodeSpan | src/comms/packet.h:87 | an encoded span keeps its length |
| Cobs.DecodeSpan | src/comms/packet.h:108 | a decoded span restores the n - 2 data bytes |
| Cobs.StuffHasNoZero | src/comms/packet.h:87 | stuffed data contains no zero byte |
| Cobs.UnstuffStuff | src/comms/packet.h:87-108 | destuffing inverts stuffing |
| Cobs.StuffUnstuff | src/comms/packet.h:87-108 | whatever destuffs successfully is the stuffing of its result |
| Cobs.EncodeNoZero | src/comms/packet.h:87 | an encoded span has no zero before its end slot, and its end slot holds 0 |
| Cobs.DecodeEncode | src/comms/packet.h:87-108 | decoding an encoded span gives back its data bytes |
| Cobs.EncodeDecode | src/comms/packet.h:87-108 | the decoder accepts only canonical encodings, up to the ignored end slot |
| Cobs.EncodeInPlace | src/comms/packet.h:87 | cobsEncode in place changes only the span, to its encoding |
| Cobs.DecodeInPlace | src/comms/packet.h:108 | cobsDecode in place reports success exactly when the span decodes; it restores the data between the slots, or changes nothing |
| Bytes.LittleEndian16RoundTrip | src/comms/packet.h:39 | a 16-bit field stored low byte first reads back as itself |
| Bytes.CopyInto | src/comms/packet.h:81 | memcpy changes only the target range, which then holds the source bytes |
| Mission.PollInput | src/raspi2.cpp:54-61 | counts the highs among 5 samples; asserted exactly when fewer than 3 are high |
| Mission.AssertedIsMajorityLow | src/raspi2.cpp:54-61 | asserted exactly when at least 3 of the 5 samples are low |
| Mission.AssertedMonotone | src/raspi2.cpp:54-61 | samples at most as high, position by position, keep the line asserted |
| Mission.PollExamples | src/raspi2.cpp:60 | {1,0,0,0,0} is asserted; {1,1,0,1,1} is not |
| Mission.Classify | src/raspi2.cpp:204-226 | empty: skipped; "Mr": reset; "Me": exit; "Mt": test; 'D': data; any first character other than 'M' or 'D': unidentified; each case exactly |
| Mission.ClassifyIgnoresTail | src/raspi2.cpp:207-209 | only the first two characters decide the command |
| Mission.StepAdvancesOnePhase | src/raspi2.cpp:143-228 | one step of the monitor changes the phase only by entering the next one, and accepts nothing after the end |
| Mission.EffectsStartWithReceipt | src/raspi2.cpp:204-226 | a message yields effects exactly when it is not empty, and they start with its command being received |
| Mission.BurnLevelsFollowState | src/raspi2.cpp:106-124 | in an accepted trace, the burn-wire writes are exactly what the burn state records: none, [1], or [1, 0] |
| Mission.BurnWireOnce | src/raspi2.cpp:106-124 | the burn wire is driven high at most once and low at most once, high first |
| Mission.EntriesFollowPhase | src/raspi2.cpp:143-228 | the phases an accepted trace entered are exactly those up to its current phase |
| Mission.PhasesInOrder | src/raspi2.cpp:143-228 | phases are entered only in the order LO, SOE, SODS, each at most once |
| Mission.LastPollTracked | src/raspi2.cpp:54-61 | the monitor's last poll is the trace's last poll |
| Mission.PrefixAccepted | src/raspi2.cpp:162-231 | every prefix of an accepted trace is accepted |
| Mission.EnteredAfterPoll | src/raspi2.cpp:128-159 | each phase is entered right after its own line (LO, SOE, SODS) polled asserted |
| Mission.ReceivedBeforeLiftOff | src/raspi2.cpp:200-228 | commands are handled only before any phase has been entered |
| Mission.ExitIsLast | src/raspi2.cpp:75 | nothing follows the exit |
| Mission.EndedStaysEnded | src/raspi2.cpp:75 | any event after an exit makes the trace unacceptable |
| Mission.ReleasedAfterTimeout | src/raspi2.cpp:107-124 | an expired or released burn wire has a start and an end clock reading, both in the trace, more than 6000 ms apart in unsigned 32-bit arithmetic |
| Mission.NextChunk | src/raspi2.cpp:116 | one pipe read hands over at most 255 bytes, a prefix of the next chunk |
| Mission.ReadLosesNothing | src/raspi2.cpp:116-120 | the bytes read plus the bytes still in the pipe are the bytes that were in it |
| Mission.PhasesAndBurn | src/raspi2.cpp:92-160 | an accepted trace in storage with the wire released entered LO, SOE, SODS and drove the wire [1, 0]; one idle with the wire unfired entered nothing and never touched the wire |
| Mission.RebootAfterStorage | src/raspi2.cpp:228-229 | after storage, the reboot is accepted and changes neither the phases entered nor the wire levels |
| Mission.CommandsConcat | src/raspi2.cpp:204-226 | the commands received by two traces in sequence are those of the first, then those of the second |
| Mission.PassEvents | src/raspi2.cpp:200-226 | one pass before lift-off takes one LO reading and receives the message's command exactly when the message is not empty |
| Mission.AwaitConsumes | src/raspi2.cpp:199-227 | the loop before lift-off consumes the inbox from the front and leaves the clock and the ImP pipe alone |
| Mission.AwaitReadsInOrder | src/raspi2.cpp:199-227 | the commands of the whole inbox are those the loop received, in order, followed by those of the messages it left unread |
| Mission.AwaitExit | src/raspi2.cpp:199-227 | the loop ends in an exit only when the last message it read classified as "Me" |
| Mission.AwaitPollsLo | src/raspi2.cpp:199-227 | the loop polls only LO, every reading but the last not asserted, and ends on LO asserted unless it exited or halted |
| Mission.AwaitPollsOneLine | src/raspi2.cpp:128-159 | the SOE and SODS waits poll only their own line until it is asserted, receive no command, and touch neither the inbox nor the clock, nor the ImP pipe unless they relay |
| Mission.BurnStopsAtFirstTimeout | src/raspi2.cpp:106-124 | the burn loop stops at the first clock reading more than 6000 ms after the start; every earlier reading lies within 6000 ms, and when the readings run out all of them did |
| Mission.OperationExit | src/raspi2.cpp:199-227 | the operation after set-up ends in an exit only when some message in its inbox classified as "Me" |
| Mission.ExitNeedsCommand | src/raspi2.cpp:162-231 | the program ends in an exit only when some message in its inbox classified as "Me" |
| Mission.Pi2.constructor | src/raspi2.cpp:30 | flight_mode starts false; nothing has happened yet |
| Mission.Pi2.Emit | src/raspi2.cpp:162-231 | an effect is appended to the trace |
| Mission.Pi2.PollLine | src/raspi2.cpp:54-61 | poll_input on the next five levels; the result is recorded |
| Mission.Pi2.ReadMessage | src/raspi2.cpp:204 | the next message, or "" when none has arrived |
| Mission.Pi2.RelayImP | src/raspi2.cpp:116-121 | one pipe read, forwarded to Ethernet when it is not empty |
| Mission.Pi2.ReadClock | src/raspi2.cpp:107 | millis(), recorded |
| Mission.Pi2.SignalHandler | src/raspi2.cpp:63-76 | stop the video, close both pipes, shut down, exit with status 1; the monitor records the end |
| Mission.Pi2.Run | src/raspi2.cpp:162-231 | the trace, the streams left and the outcome are exactly those of `Program` on the initial streams (the set-up events, then those of `Operation`); the trace is accepted; flight_mode is the launch-mode level read at start-up; a completed run entered LO, SOE and SODS, drove the wire [1, 0] and ends with a reboot; an exit by command entered no phase, never touched the wire and ends with the signal handler's effects; a halt means the levels or the clock ran out; an exit happens only when a "Me" message was in the inbox |
| Mission.Pi2.SetUp | src/raspi2.cpp:183-194 | flight_mode is the LAUNCH_MODE_IN level read; ALIVE is raised and the server started, in that order; one level is consumed and the monitor still at its start |
| Mission.Pi2.Operate | src/raspi2.cpp:198-229 | the trace appended, the streams left and the outcome are exactly those of `Operation`; a completed operation entered LO, SOE and SODS, drove the wire [1, 0] and ends with a reboot; an exit entered no phase, never touched the wire, ends with the signal handler's effects and needs a "Me" message in the inbox; a halt means the levels or the clock ran out |
| Mission.Pi2.AwaitLiftOff | src/raspi2.cpp:199-227 | the trace appended, the streams left and the two flags are exactly those of `AwaitFrom` on the initial streams; the loop ends with LO just polled asserted and nothing else changed, or with the signal handler's effects after an exit command, or with the levels run out; no phase is entered and the wire is untouched |
| Mission.Pi2.LiftOffPass | src/raspi2.cpp:200-226 | one pass: halts without change when fewer than five levels are left; otherwise polls LO on the next five, dispatches the next message, and appends exactly the reading and that message's effects |
| Mission.Pi2.Dispatch | src/raspi2.cpp:204-226 | each command's effects exactly: skip, reboot, signal handler, report, or nothing; only "Me" ends the program |
| Mission.Pi2.LoSignal | src/raspi2.cpp:143-160 | the trace appended, the streams left and the result are exactly those of `LoRun`; the trace stays accepted; on completion the mission is in the storage phase with the wire released and not ended; otherwise the levels or the clock ran out |
| Mission.Pi2.AwaitLine | src/raspi2.cpp:128-159 | the polling loop appends exactly the events of `Await` and leaves its streams; it ends with the line just polled asserted, or with fewer than five levels left |
| Mission.Pi2.SoeSignal | src/raspi2.cpp:92-141 | the trace appended, the streams left and the result are exactly those of `SoeRun`; the trace stays accepted; on completion the mission is in the storage phase with the wire released and not ended; otherwise the levels or the clock ran out |
| Mission.Pi2.BurnPulse | src/raspi2.cpp:106-124 | the trace appended, the streams left, the result and the two clock readings are exactly those of `Pulse`; the trace stays accepted; on success the burn wire is released with start and end readings more than 6000 ms apart in unsigned 32-bit arithmetic, nothing else in the mission state changes; otherwise the clock ran out |
| Mission.Pi2.BurnTimer | src/raspi2.cpp:107-124 | the timing loop appends exactly the events of `BurnLoop` from the start reading; on time-out the wire is expired with the last reading more than 6000 ms after the start, otherwise the clock ran out |
| Mission.Pi2.BurnPass | src/raspi2.cpp:107-121 | one clock reading; past 6000 ms it stops, otherwise it relays one ImP read; nothing changes when the clock has run out |
| Mission.Pi2.SodsSignal | src/raspi2.cpp:78-90 | enter SODS, stop the video, close both pipes |
| Imu.Word | src/RPi_IMU/RPi_IMU.cpp:240 | `lo \| hi << 8` is the 16-bit value whose bytes, low first, are lo and hi |
| Imu.Words | src/RPi_IMU/RPi_IMU.cpp:240-242 | data[k] is block[2k] and block[2k+1], low byte first, for k = 0..2 |
| Imu.WordsBlock | src/RPi_IMU/RPi_IMU.cpp:232-274 | three words laid out low byte first read back as themselves |
| Imu.BlockWords | src/RPi_IMU/RPi_IMU.cpp:232-274 | a six-byte block is exactly the layout of the three words it yields |
| Imu.ReadVector | src/RPi_IMU/RPi_IMU.cpp:232-274 | readAcc, readGyr and readMag store the three words of the block and nothing else |
| Imu.ReadAxis | src/RPi_IMU/RPi_IMU.cpp:121-230 | 0 unless the bus is active, the sensor selected and the axis 1, 2 or 3; otherwise the low eight bits of the two word reads, low register first |
| Imu.FailedReadsShowAsOnes | src/RPi_IMU/RPi_IMU.cpp:150-152 | an axis whose two word reads both fail (-1) reads 0xFFFF |
| Imu.TimestampBytes | src/RPi_IMU/RPi_IMU.cpp:337-341 | the timestamp is four bytes |
| Imu.TimestampRoundTrip | src/RPi_IMU/RPi_IMU.cpp:337-341 | the four timestamp bytes, most significant first, read back as the time modulo 2^32, and as the time itself when it is not negative |
| Imu.TimestampInjective | src/RPi_IMU/RPi_IMU.cpp:337-341 | different 32-bit times give different timestamp bytes |
| Imu.StampTime | src/RPi_IMU/RPi_IMU.cpp:338-341 | the four stores fill offsets 18..21 with the timestamp and leave 0..17 alone |
| Imu.PacketIndex | src/RPi_IMU/RPi_IMU.cpp:355 | the index is 5j + i while that fits in 16 bits, and smaller once it is truncated |
| Imu.IndicesDistinctWithinFile | src/RPi_IMU/RPi_IMU.cpp:334-355 | the 100 measurements of one file get distinct 16-bit indices |
| Imu.ConsecutiveFilesCollide | src/RPi_IMU/RPi_IMU.cpp:355 | measurement i of file j + 1 reuses the index of measurement i + 5 of file j |
| Imu.IndexCollisionExample | src/RPi_IMU/RPi_IMU.cpp:355 | (j, i) = (0, 5) and (1, 0) share an index |
| Imu.BackupName | src/RPi_IMU/RPi_IMU.cpp:327-329 | a backup name starts with the file name and "_", ends in ".txt", and is at least ten characters longer than the file name and start together |
| Imu.BackupNamesDistinct | src/RPi_IMU/RPi_IMU.cpp:327-329 | different file numbers give different names; below 10000 a name is the prefix lengths plus 10 characters long |
| Imu.NumberOfName | src/RPi_IMU/RPi_IMU.cpp:328-329 | the zero-filled number sits right after filename, "_", start and "_" |
| Imu.SampleBytes | src/RPi_IMU/RPi_IMU.cpp:318-341 | a sample is 22 bytes |
| Imu.SamplePacketsRoundTrip | src/RPi_IMU/RPi_IMU.cpp:353-357 | the ID_DATA1 packet carries bytes 0..11 and the ID_DATA2 packet bytes 12..21 under the same index; unpacking both gives back the whole sample |
| Imu.Attempt | src/RPi_IMU/RPi_IMU.cpp:336-364 | one measurement writes at most two packets; it fails exactly when it wrote fewer than two; the code is -1 exactly when the bus is inactive or the accelerometer cannot be selected |
| Imu.SamplePackets | src/RPi_IMU/RPi_IMU.cpp:353-357 | a measurement yields two packets |
| Imu.Slots | src/RPi_IMU/RPi_IMU.cpp:361-364 | the first count packets of one measurement |
| Imu.Collect | src/RPi_IMU/RPi_IMU.cpp:324-371 | a run from measurement n stops between n and the end, at the end exactly when nothing failed, and writes only packets of measurements n onwards |
| Imu.CollectStops | src/RPi_IMU/RPi_IMU.cpp:324-371 | a run stops at its first failing measurement, with that measurement's exit code; it writes two packets per measurement before it, and those of the failing one written before its failed write |
| Imu.CollectedPackets | src/RPi_IMU/RPi_IMU.cpp:361-364 | packet 2(q - n) + h of a run is packet h of measurement q: the pipe carries packets in measurement order, ID_DATA1 before ID_DATA2 |
| Imu.CollectedPacketsDecode | src/RPi_IMU/RPi_IMU.cpp:353-364 | every packet a run writes decodes to its half of its measurement's sample, under index 5j + i |
| Imu.Names | src/RPi_IMU/RPi_IMU.cpp:324-332 | a run that opened count files opened count names |
| Imu.FirstReap | src/RPi_IMU/RPi_IMU.cpp:429-434 | the first of the five tries at which waitpid reaps the child, or 5 |
| Imu.Escalation | src/RPi_IMU/RPi_IMU.cpp:429-440 | one to six signals, the first SIGTERM |
| Imu.EscalationShape | src/RPi_IMU/RPi_IMU.cpp:429-440 | one to five SIGTERMs, the last the one after which the child was reaped; SIGKILL exactly when no try reaped, and then after five SIGTERMs |
| Imu.Escalate | src/RPi_IMU/RPi_IMU.cpp:428-440 | the loop sends exactly the escalation; died exactly when some try reaped |
| Imu.RpiImu.constructor | src/RPi_IMU/RPi_IMU.cpp:308-313 | no child and no pipes yet; nothing sent, written or opened |
| Imu.RpiImu.ReadRegisters | src/RPi_IMU/RPi_IMU.cpp:276-291 | throws -1 exactly when the bus is inactive or the accelerometer cannot be selected, leaving the buffer; otherwise acc, gyr, mag at offsets 0, 6, 12, the rest untouched |
| Imu.RpiImu.Measure | src/RPi_IMU/RPi_IMU.cpp:335-364 | one pass writes the first Attempt-count packets of the measurement; returns its failure; a failure closes the pipes |
| Imu.RpiImu.PackSample | src/RPi_IMU/RPi_IMU.cpp:336-357 | read, stamp and pack: the two packets hold the measurement's two frames unless readRegisters threw |
| Imu.RpiImu.MeasureNext | src/RPi_IMU/RPi_IMU.cpp:334-368 | measurement k writes exactly what the run from k writes before the run from k + 1 begins, or, on failure, all the run from k writes |
| Imu.RpiImu.FillFile | src/RPi_IMU/RPi_IMU.cpp:334-368 | the 100 measurements of file j, stopping at a failure or when the measurements run out, in step with the run |
| Imu.RpiImu.NextFile | src/RPi_IMU/RPi_IMU.cpp:326-370 | opens backup file j, with its name, and fills it |
| Imu.RpiImu.CollectSamples | src/RPi_IMU/RPi_IMU.cpp:315-371 | the child's loop writes exactly the run's packets, opens one file per block of 100 measurements started, and ends with the run's exit code |
| Imu.RpiImu.FileLoop | src/RPi_IMU/RPi_IMU.cpp:324-371 | the loop over backup files, with the same outcome as the run |
| Imu.RpiImu.StartDataCollection | src/RPi_IMU/RPi_IMU.cpp:308-407 | the parent records the pid and returns with the pipes open; a failed fork exits with -3, pipes closed; the child writes the run's packets and files and exits with its code |
| Imu.RpiImu.Status | src/RPi_IMU/RPi_IMU.cpp:409-423 | alive exactly when a child is recorded and waitpid returns 0; false when it returns the pid or an error |
| Imu.RpiImu.StopDataCollection | src/RPi_IMU/RPi_IMU.cpp:425-445 | always 0 and no pid afterwards; without a child nothing happens; with one, the escalation is sent and the pipes are closed |
| Logger.DecomposeBounds | src/logger/logger.cpp:19-24 | hr is the count divided by 3 600 000; min < 60, sec < 60, rem < 1000; hr·3 600 000 + min·60 000 + sec·1000 + rem is the count |
| Logger.Time | src/logger/logger.cpp:16-27 | with exact arithmetic the successive subtractions print the decomposition's fields in order, separated by ':' |
| Logger.StampInjective | src/logger/logger.cpp:25 | equal stamps come from equal counts: the stamp identifies the count |
| Logger.TimeAsWritten | src/logger/logger.cpp:16-27 | the written arithmetic: hr, min and sec are 32-bit ints and the remainder a 64-bit count; the three wrapped products plus the remainder, reduced to 64 bits, give back the count |
| Logger.Recombine | src/logger/logger.cpp:19-24 | three wrapped 64-bit subtractions are undone by one wrapped sum of what was subtracted |
| Logger.AsWrittenAgreesBelowOverflow | src/logger/logger.cpp:19-24 | below 597 hours' worth of counts, the written int arithmetic gives the decomposition |
| Logger.AsWrittenOverflows | src/logger/logger.cpp:19-20 | at 597 hours' worth of counts the written arithmetic prints 597:71582:4295014:4294967888 instead of 597:0:0:0 |

## Left out

- The implementations of `crc16Gen`, `cobsEncode` and `cobsDecode` are not part of this model; `Crc16` and `Cobs` are reference definitions. The COBS reference covers spans of at most 255 bytes, which includes the codec's 23.
- Host byte order: the index and the checksum are taken to be stored little-endian, as on the Raspberry Pi.
- Register numbers, `activateSensor`, `writeReg`, the sensor set-up routines and the I2C calls themselves: their results enter as parameters.
- `resetRegisters`, called on the -2 path: only I2C writes.
- The CSV line written to the backup file for each sample: text output. Only the files opened are recorded, by name.
- The `Logger` class, its file handling, and `operator<<` for `Packet`: text output.
- The `catch (...)` path of `startDataCollection`, reached only by exceptions other than the codes it throws itself.
- The sleeps and delays, and the 100 ms pacing of the measurement loop.
- The Ethernet server, the UART set-up and the camera: their start and stop calls and pipe reads are recorded as events or read from streams.
- `system("sudo reboot")` and `system("sudo shutdown now")` are recorded as events.
- Concurrency: the forked child runs in the same model as the parent. Its pipe writes are recorded on the object, and the parent's reads are a separate stream.
- Infinite loops: the measurement stream, the GPIO levels and the clock readings are finite. When they run out the run stops there ("halted"); the real program would go on.
- Imu.Measure: the 16-bit truncation of the index is modelled, but the `int` overflow of `5 * j` past 2^31 is not.
- Mission.Pi2.Run: `flight_mode` is recorded but, as in the code, never consulted.

## Findings

| source | as written | input that shows it | evidently intended | confidence | as-written member | corrected member |
|---|---|---|---|---|---|---|
| src/logger/logger.cpp:19-20 | `hr * 3600000` is an `int` product, so it wraps past 2^31 - 1 before being subtracted from the 64-bit count | elapsed count 2 149 200 000 (597 × 3 600 000; the timer counts nanoseconds, so about 2.15 s into a log) gives 597:71582:4295014:4294967888 | 597:0:0:0, with min < 60, sec < 60, rem < 1000 and the fields recomposing to the count | not executed | Logger.AsWrittenOverflows | Logger.Time |
| src/comms/packet.h:144 | the fourth case label is the hexadecimal 0x00100001, which no 6-bit masked id can equal | lengthByID(ID_DATA4 = 0x22) is 0, so pack of a Pi 2 mag/time packet returns -1 | ID_DATA4 carries 12 bytes, as the case's comment says | not executed | Packets.DeadCaseLabel | Packets.LengthByIdTable |
