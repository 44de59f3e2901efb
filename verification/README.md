# Joyson glove SDK: a Dafny model of its protocol, client, caches and threads

The SDK talks to a glove with six motors, sixteen angle encoders and one IMU by request and reply
over UDP. This project models that SDK and proves properties of the model.

- **Wire format** (`Packet.dfy`, `WireLanguage.dfy`, `Commands.dfy`, `Replies.dfy`): the outer frame,
  the inner motor frame, the two firmware workarounds, the eight request encoders and the three reply
  parsers. Byte-building and summing code is methods with loops, proved against functions on sequences.
- **Client** (`UdpClient.dfy`): the class with its descriptor, flag and wrapping 64-bit counters, one
  call at a time. What `send` and `recv` answer is a parameter of each call.
- **Concurrent exchange** (`Exchange.dfy`, `Counters.dfy`, `Pairing.dfy`): any number of threads in `send_and_receive`,
  `reset_statistics`, `connect` and `disconnect`, step by step, over a reply channel that loses and
  delays but keeps order. UDP itself promises neither delivery nor order (RFC 768); keeping order is an
  assumption of this model. A run is any sequence of enabled steps, so the theorems hold for all
  interleavings. Tags and logs are history that no step consults.
- **Motors** (`MotorController.dfy`): range checks, batches that continue after failures, status cache.
- **Encoders** (`Binary32.dfy`, `EncoderReader.dfy`, `EncoderCache.dfy`): the float pipeline with every
  operation followed by a rounding, which may be any function that leaves representable numbers alone;
  and readers of cached angles, which take two locks one after the other, against concurrent calibrations.
- **IMU** (`ImuReader.dfy`, `ImuCache.dfy`): yaw wrap over the reals, and the cache against concurrent
  calibration changes. Each stretch of code under a lock is one step there.
- **Unified loop** (`UnifiedLoop.dfy`): the update loop run over the concurrent channel when replies lag d
  requests behind, for any number of turns and wherever its request numbers begin (after
  `GloveSDK::initialize` they begin at 14).
- **Lifecycle and locks** (`Lifecycle.dfy`, `Locks.dfy`): one controller thread against the updater, atomic
  step by atomic step; and every mutex of the SDK with the join in `stop`.

Where the code and its documents differ, the model follows the code:

- docs/PROTOCOL.md:232-251 shows motor replies without target and command bytes; src/protocol.cpp:437-462
  and tests/test_protocol.cpp:334-365 put the inner frame after them.
- docs/PROTOCOL.md:632-636 counts malformed packets as receive errors; src/udp_client.cpp:196-199 counts every
  packet that does not read as a checksum error.
- src/protocol.cpp:439 admits motor bodies of 18 bytes although index 18 is read (src/protocol.cpp:459).
  `Replies.MotorReadsDefined` excludes exactly the packets for which that read is outside the body, and it
  is a precondition wherever a motor status is parsed.

Three properties one might expect do not hold. For each there is an input that shows it, and the exact
condition under which it does hold:

- a reply need not answer the request it is returned for. `Pairing.OneTimeoutShiftsTheNext` is a run of
  one caller in which a single timeout makes the next exchange return the earlier reply;
  `Pairing.TwoCallersCanCross` is one of two callers with nothing lost or late, the mismatch of which
  include/joyson_glove/encoder_reader.hpp:88-89 warns. While nothing is lost or
  late, and for any number of callers, replies are taken in the order the requests were sent
  (`Pairing.RepliesComeInSendOrder`), so an exchange gets its own reply exactly when it takes in the turn
  in which it sent (`Pairing.OwnReplyIffTakenInTurn`), and everyone does exactly when replies are taken in
  send order (`Pairing.AllOwnIffTakenInSendOrder`). What callers can arrange is that exchanges do not
  overlap, which one caller's never do. Then the counters tell beforehand, unless they were reset (or
  wrapped, in 2^64 steps): `Pairing.OwnReplyIffNothingLate` says that exchanges return their own replies
  if timeouts and receive errors are both zero and, when no reply was lost, only then.
  `Exchange.BacklogIsTheLateExchanges` is the law behind it, `Pairing.BacklogShiftsForever` what happens
  otherwise.
- sensor replies may be dropped because their data looks like a motor header:
  `Replies.EncoderReplyMayBeDropped` and `Replies.ImuReplyMayBeDropped` give readings that never get
  through, `Replies.EncoderReplyLaw` and `Replies.ImuReplyLaw` say which do.
- wrapped yaw need not lie in [0, 360): `Imu.YawMayBeNegative` (raw -181 with offset 180 gives -1), and
  `Imu.YawWrapLaw` for the exact range.

## Model

| member | source | states |
|---|---|---|
| Packets.Serialize | src/protocol.cpp:15-40 | the packet's fields in wire order |
| Packets.CalculateChecksum | src/protocol.cpp:118-125 | the 32-bit wrapping accumulator gives the exact sum of all but the last two bytes, modulo 256 |
| Packets.CalculateMotorChecksum | src/protocol.cpp:128-135 | the same for the inner frame, without its two header bytes and check byte |
| Packets.ValidateChecksum | src/protocol.cpp:138-142 | true exactly when header, length, module, target, command and body sum to the checksum byte |
| Packets.ValidateMotorChecksum | src/protocol.cpp:145-161 | false exactly for bodies that start 55 AA or AA 55 and whose inner sum is wrong |
| Packets.Deserialize | src/protocol.cpp:43-115 | for every byte string: a packet exactly when the string is in the closed language InLanguage, written in the protocol's numbers (it begins 0xEE and ends 0x7E), and then its fields |
| WireLanguage.FrameLaw | src/protocol.cpp:43-115 | for every eight fields, in numbers: which strings of that form are read, and as what packet |
| WireLanguage.ShortFramesAreRefused | src/protocol.cpp:43-50 | nothing below seven bytes is read, and every longer string has that form |
| WireLanguage.ImuFramesAreAccepted | src/protocol.cpp:55-114 | EE 11 01 02, any command, body and checksum byte, 7E: read unless the body looks like a motor frame with a wrong inner sum |
| WireLanguage.DeserializeInvertsSerialize | src/protocol.cpp:15-115 | reading a written packet gives it back if it is valid and nothing otherwise, for all packets |
| WireLanguage.SerializeInvertsDeserialize | src/protocol.cpp:15-115 | writing what was read restores the bytes; only valid packets are read |
| WireLanguage.AcceptedIffWrittenFromValid | src/protocol.cpp:43-115 | accepted strings are exactly the images of valid packets, each of one packet only |
| WireLanguage.SingleByteErrorDetected | src/protocol.cpp:60-106 | any one changed byte of an accepted frame is rejected when neither version has the IMU prefix |
| WireLanguage.SingleByteErrorLaw | src/protocol.cpp:60-112 | exactly which one-byte changes of an accepted frame go through, position by position, with the IMU prefix (0xEE 0x11 0x01 0x02) before, after, both or neither |
| WireLanguage.BodyChangeLaw | src/protocol.cpp:145-161 | which one-byte changes the inner check lets through: none beyond a motor body's header, any in another body that does not become a motor body with a wrong sum |
| WireLanguage.MotorBodyErrorLaw | src/protocol.cpp:104-161 | changes confined to body[2..] of a motor frame go through exactly when payload sum and check byte move by the same 0 or 128 |
| Commands.WriteUint16Le | src/protocol.cpp:164-172 | appends two bytes that the little-endian reader turns back into the value |
| Commands.SealMotor | src/protocol.cpp:207-219 | the inner check byte patched over the placeholder, then length and outer checksum of the whole packet |
| Commands.Seal | src/protocol.cpp:403-410 | the length byte, and the outer sum taken over the packet written with a zero checksum |
| Commands.EncodeReadMotorId | src/protocol.cpp:189-220 | the frame of ReadMotorId |
| Commands.EncodeReadMotorStatus | src/protocol.cpp:223-253 | the frame of ReadMotorStatus |
| Commands.EncodeSetMotorMode | src/protocol.cpp:256-287 | the frame of SetMode |
| Commands.EncodeSetMotorPosition | src/protocol.cpp:290-321 | the frame of SetPosition |
| Commands.EncodeSetMotorForce | src/protocol.cpp:324-355 | the frame of SetForce |
| Commands.EncodeSetMotorSpeed | src/protocol.cpp:358-390 | the frame of SetSpeed |
| Commands.EncodeReadAllEncoders | src/protocol.cpp:393-411 | the frame of ReadEncoders |
| Commands.EncodeReadImu | src/protocol.cpp:414-429 | the frame of ReadImu |
| Commands.EncodeRegisterWrite | src/protocol.cpp:262-284 | the shape the three one-register writes share |
| Commands.CommandsReadBack | src/protocol.cpp:189-429 | every request is accepted by the frame reader, has no workaround prefix, and a reader written from the protocol tables recovers command and arguments |
| Commands.OnlyItsOwnBytesReadAsACommand | src/protocol.cpp:189-429 | that reader recovers a command from exactly one byte string, the encoder's |
| Commands.CommandsAreUnambiguous | src/protocol.cpp:189-429 | equal bytes mean equal command and arguments |
| Commands.RequestsInNumbers | src/protocol.cpp:189-429 | every request is its documented byte string, checksums included, for all arguments |
| Commands.MotorChecksumLaw | src/protocol.cpp:118-135 | outer checksum of a motor request = EE + length + module + target + command + FF + twice the inner check byte, modulo 256 |
| Replies.ParseMotorStatus | src/protocol.cpp:432-463 | a status exactly for module 1, target 1, at least 18 body bytes and header AA 55 |
| Replies.ParseEncoderData | src/protocol.cpp:466-483 | sixteen big-endian words, for module 1, target 2 and at least 32 body bytes; nothing otherwise |
| Replies.ParseImuData | src/protocol.cpp:486-504 | three words exactly for module 1 and at least 12 body bytes, whatever the target |
| Replies.ParsersByKind | src/protocol.cpp:432-504 | motor and encoder parsers never take the same packet; what either takes the IMU parser takes too |
| Replies.EncoderReplyMayBeDropped | src/protocol.cpp:104-112 | a reading with channel 0 = 0x55AA whose reply is never accepted |
| Replies.ImuReplyMayBeDropped | src/protocol.cpp:104-112 | an orientation whose reply is never accepted, whatever its checksum byte |
| Replies.EncoderReplyLaw | src/protocol.cpp:60-112 | with length byte 0x22 or 0x25: delivers exactly the sixteen words, or is dropped exactly when channel 0 is 0x55AA or 0xAA55 and the inner sum fails |
| Replies.ImuReplyLaw | src/protocol.cpp:60-112 | whatever its checksum byte: delivers exactly the three words, or is dropped under the analogous condition; never encoder data |
| Replies.StatusReplyInNumbers | src/protocol.cpp:437-462 | the bytes of a status reply, field by field |
| Replies.EncoderReplyInNumbers | src/protocol.cpp:472-480 | the bytes of an encoder reply: high byte first for each channel |
| Replies.ImuReplyInNumbers | src/protocol.cpp:180-187 | the bytes of an IMU reply: roll, pitch, yaw, high byte first |
| Replies.StatusReplyLaw | src/protocol.cpp:432-463 | every well-formed status reply gets through and parses to the status that was sent |
| Client.UdpClient.constructor | src/udp_client.cpp:18-20 | no socket, not connected, zero counters |
| Client.UdpClient.Connect | src/udp_client.cpp:48-125 | keeps an existing connection; any failing step leaves no descriptor; counters untouched |
| Client.UdpClient.Disconnect | src/udp_client.cpp:127-136 | closes and clears; counters untouched |
| Client.UdpClient.SendPacket | src/udp_client.cpp:138-168 | what is handed to the socket; sent up by one exactly for a whole send while connected, which is success, and send errors up by one otherwise; no other counter |
| Client.UdpClient.ReceivePacket | src/udp_client.cpp:170-204 | the packet read from at most 1024 bytes; and by name the one counter that moves: received, checksum errors, timeouts or receive errors |
| Client.UdpClient.SendAndReceive | src/udp_client.cpp:206-211 | the receive happens only after a whole send; state and reply after both |
| Client.UdpClient.ResetStatistics | src/udp_client.cpp:222-225 | all counters zero |
| Client.UdpClient.UpdateSendStats | src/udp_client.cpp:239-246 | sent or send errors, by one, modulo 2^64 |
| Client.UdpClient.UpdateReceiveStats | src/udp_client.cpp:248-259 | exactly one counter, by one, modulo 2^64: received, timeouts, checksum errors or receive errors in the order of the flags |
| Exchange.StatisticsAreConserved | src/udp_client.cpp:138-259 | every interleaving of any number of threads and resets: sent plus the threads that were in between right after the last reset (none without one) = received + timeouts + receive errors + checksum errors + those in between now, modulo 2^64 |
| Counters.EveryCounterCounts | src/udp_client.cpp:138-259 | each of the six counters, every interleaving of any number of threads and resets: what it shows plus its events still uncounted = its events since the last reset plus those uncounted then, modulo 2^64 |
| Counters.CountersAtRest | src/udp_client.cpp:138-259 | all threads at rest, no reset, by name and modulo 2^64: sent = requests gone out whole, received = replies taken that read, checksum errors = those that do not, send errors = sends refused or cut short, timeouts and receive errors = the waits that ended so |
| Exchange.BacklogIsTheLateExchanges | src/udp_client.cpp:170-259 | every such run: the replies outstanding or lost beyond those open exchanges wait for are those at the last reset plus one per timeout or receive error counted since, modulo 2^64 |
| Exchange.BacklogOfShortRun | src/udp_client.cpp:170-259 | all threads at rest, no reset, fewer than 2^64 steps: outstanding + lost = timeouts + receive errors |
| Exchange.StepKeepsInv | src/udp_client.cpp:138-259 | each step keeps lock ownership, counter snapshots and the order of replies |
| Exchange.ExclusionOrderAndBacklog | src/udp_client.cpp:138-211 | every reachable state: mutual exclusion; replies taken in request order, none twice; backlog = sent - lost - taken |
| Pairing.OwnReplyIffNothingEarlier | src/udp_client.cpp:206-211 | one caller: a returned reply answers its own request exactly when no earlier reply is outstanding, and never a later one |
| Pairing.RepliesComeInSendOrder | src/udp_client.cpp:138-211 | any number of callers: while nothing is lost or late the i-th reply taken is the i-th of the backlog and then of the requests sent, and what is outstanding is backlog + sent - taken |
| Pairing.OwnReplyIffTakenInTurn | src/udp_client.cpp:206-211 | any number of callers, overlapping or not: the k-th to take gets its own reply exactly when k has passed the backlog d and its request was the one sent k - d after the start |
| Pairing.RepliesArePermuted | src/udp_client.cpp:206-211 | when all who sent have received, each request was answered exactly once and the backlog is what it was; from an empty channel the replies are those of the requests, in send order |
| Pairing.AllOwnIffTakenInSendOrder | src/udp_client.cpp:206-211 | and then everyone got its own reply exactly when replies were taken in send order |
| Pairing.OwnReplyIffNothingLate | src/udp_client.cpp:170-211 | any number of callers, no reset, fewer than 2^64 steps so far: exchanges that do not overlap and with nothing more lost or late return their own replies exactly when timeouts + receive errors = replies lost; so when both counters are 0, and only then if nothing was lost |
| Pairing.BacklogShiftsForever | src/udp_client.cpp:170-211 | any number of callers whose exchanges do not overlap: with backlog d and nothing lost or late, the first d exchanges return the old replies and exchange k then returns reply k - d, for any length of run; the backlog stays d |
| Pairing.BacklogReturnsOlderBytes | src/udp_client.cpp:170-211 | the packet returned is then what the older reply's bytes read as |
| Pairing.ChannelLags | src/udp_client.cpp:170-211 | so the sequential client sees a network in which every exchange hears the reply to the request d earlier |
| Pairing.OneTimeoutShiftsTheNext | src/udp_client.cpp:170-211 | a run of one caller: one timeout, nothing lost, and the next exchange returns the earlier reply |
| Pairing.UndisturbedExchangeIsTheClients | src/udp_client.cpp:138-211 | the concurrent system run by one thread alone counts and returns what the sequential client does, and adds one to the backlog exactly when a sent request took no reply |
| Pairing.UndisturbedToggleIsTheClients | src/udp_client.cpp:48-136 | connect keeps or makes the connection, disconnect ends it, and nothing else moves |
| Pairing.TwoCallersCanCross | src/udp_client.cpp:206-211 | two callers whose exchanges overlap: a run with nothing lost or late in which one receives the other's reply |
| Motors.MotorController.constructor | src/motor_controller.cpp:13-21 | slot k starts with motor id k + 1 |
| Motors.MotorController.SetMotorMode | src/motor_controller.cpp:99-119 | ids 1 to 6 and modes up to 5: exactly the documented bytes handed over while connected, true exactly when answered; anything else: client untouched, false |
| Motors.MotorController.SetMotorPosition | src/motor_controller.cpp:121-141 | the same for positions up to 2000 |
| Motors.MotorController.SetMotorForce | src/motor_controller.cpp:143-163 | the same for forces up to 4095 |
| Motors.MotorController.SetMotorSpeed | src/motor_controller.cpp:165-185 | the same; the speed itself is unrestricted |
| Motors.MotorController.SetAllModes | src/motor_controller.cpp:187-195 | all six tried in order despite failures; connected and in range, exactly six buffers are handed over, the documented bytes for motors 1 to 6; true exactly when the mode is at most 5 and all six replied |
| Motors.MotorController.SetAllPositions | src/motor_controller.cpp:197-206 | the same: motor i gets the i-th position, up to 2000 |
| Motors.MotorController.SetAllForces | src/motor_controller.cpp:208-217 | the same: motor i gets the i-th force, up to 4095 |
| Motors.MotorController.Initialize | src/motor_controller.cpp:32-69 | mode 3 for motors 1 to 6 and, only after six replies, force 10 for motors 1 to 6; true exactly when all twelve replied |
| Motors.MotorController.GetMotorStatus | src/motor_controller.cpp:219-233 | no exchange for a bad id; otherwise whatever status the reply parses to |
| Motors.MotorController.GetCachedStatus | src/motor_controller.cpp:235-242 | slot id - 1 for ids 1 to 6, nothing otherwise |
| Motors.MotorController.UpdateSlot | src/motor_controller.cpp:265-272 | one turn of the update loop: one exchange, and the slot replaced or left |
| Motors.MotorController.UpdateOnce | src/motor_controller.cpp:261-275 | each slot its own exchange's status or unchanged; six status reads handed over, for motors 1 to 6; true exactly when some exchange returned a motor's status |
| Motors.BatchHandsExactlyTheSafeFrames | src/motor_controller.cpp:187-217 | a batch hands over exactly its in-range entries in ascending order, whatever the network does |
| Motors.RequestsReadBack | src/motor_controller.cpp:187-217 | each buffer of such a list reads back as its command |
| Motors.EveryEmissionIsSafe | include/joyson_glove/motor_controller.hpp:109-126 | every call sequence and network: each frame handed over reads back as id 1 to 6, mode at most 5, position at most 2000, force at most 4095 |
| Motors.PairedUpdatesKeepAlignment | src/motor_controller.cpp:261-275 | any number of updates whose exchanges each fail or hear the asked motor's status reply keep slot k naming motor k + 1 |
| Motors.OnlyMotorRepliesReachTheCache | src/motor_controller.cpp:219-275 | any other reply, or none, leaves its slot untouched |
| Binary32.AnglesAreExact | src/encoder_reader.cpp:95-123 | no rounding acts from ADC word to angle: 360*adc/65536 in [0, 360), zero-calibrated 360*(adc-zero)/65536 in (-360, 360) |
| Binary32.ScaledAnglesAreExact | src/encoder_reader.cpp:95-232 | with any scale that is a binary fraction and as long as the products fit: calibrated voltage = (voltage - zero) * scale, angle = 90 degrees per volt, no rounding |
| Encoders.AdcToVoltages | src/encoder_reader.cpp:110-123 | the voltage of every channel |
| Encoders.EncoderReader.constructor | src/encoder_reader.cpp:13-19 | zero words, uncalibrated |
| Encoders.EncoderReader.ApplyCalibration | src/encoder_reader.cpp:220-232 | raw voltages before calibration, shifted and scaled per channel after |
| Encoders.EncoderReader.VoltagesToAngles | src/encoder_reader.cpp:95-108 | the angle of every channel under the calibration in force |
| Encoders.EncoderReader.GetCachedAngles | src/encoder_reader.cpp:125-129 | the cached words through the whole pipeline |
| Encoders.EncoderReader.ReadEncoders | src/encoder_reader.cpp:79-88 | one exchange of the encoder request and what its reply parses to |
| Encoders.EncoderReader.Initialize | src/encoder_reader.cpp:29-49 | fails without a first reading, caches it otherwise |
| Encoders.EncoderReader.UpdateOnce | src/encoder_reader.cpp:174-183 | success replaces the cached words, failure leaves them |
| Encoders.EncoderReader.CalibrateZeroPoint | src/encoder_reader.cpp:131-154 | success installs the reading as zero with unit scale and caches it; failure changes nothing |
| Encoders.EncoderReader.SetCalibration | src/encoder_reader.cpp:161-164 | replaces the calibration and nothing else |
| Encoders.CacheIsTheLastReading | src/encoder_reader.cpp:131-183 | after any run the cache is the last good reading of either kind |
| Encoders.CalibrationIsTheLastZero | src/encoder_reader.cpp:131-154 | and the calibration is that of the last good calibration |
| Encoders.AnglesAfterCalibration | src/encoder_reader.cpp:125-183 | after any calibrated run: 360*(last reading - last zero)/65536, zero right after a calibration |
| Encoders.AnglesBeforeCalibration | src/encoder_reader.cpp:125-183 | before any: 360*(last reading)/65536 in [0, 360) |
| Encoders.AnglesUnderScale | src/encoder_reader.cpp:161-232 | the same of a channel under a calibration set by hand |
| Encoders.RecalibrationTranslates | src/encoder_reader.cpp:131-154 | recalibrating moves every later angle of a channel by one constant |
| EncoderCache.AnglesAreOfOneReadingAndOneZero | src/encoder_reader.cpp:125-183 | every interleaving of updates, zero calibrations and readers: each angle a reader gets is of one received reading under one installed zero, exact and in (-360, 360), or in [0, 360) before the first |
| EncoderCache.UndisturbedUpdate | src/encoder_reader.cpp:174-183 | an update alone caches its words |
| EncoderCache.UndisturbedZero | src/encoder_reader.cpp:131-154 | a calibration alone caches its words and makes them the zero point |
| EncoderCache.UndisturbedRead | src/encoder_reader.cpp:125-129 | a reader alone gets the angles of the cached words under the calibration in force |
| EncoderCache.ReadIsTornByTheZerosBetween | src/encoder_reader.cpp:90-129 | a calibration between a reader's two locks, the first one included, shifts its angle by exactly the distance of the two zeros |
| Imu.YawMayBeNegative | src/imu_reader.cpp:190-203 | between one and two turns below the offset the wrapped yaw is negative; -181 under 180 gives -1 |
| Imu.YawWrapLaw | src/imu_reader.cpp:190-203 | yaw is the raw difference modulo 360; in [0, 360) exactly when the raw yaw is at most 360 below the offset or whole turns from it; in (-360, 0] further below |
| Imu.AppliedIsCalibrated | src/imu_reader.cpp:190-203 | calibrating, in arithmetic: roll and pitch plus their offsets are the raw ones, yaw is raw - offset up to whole turns in the range of the wrap; uncalibrated, the reading itself |
| Imu.CalibratedIsUnique | src/imu_reader.cpp:190-203 | that describes one orientation only |
| Imu.RepliesAreRead | src/protocol.cpp:486-504 | a reply that gets through is read as its roll, pitch and yaw words, decoded |
| Imu.ImuReader.constructor | src/imu_reader.cpp:14-22 | level, uncalibrated |
| Imu.ImuReader.ReadImu | src/imu_reader.cpp:82-91 | one exchange of the IMU request and what its reply parses to |
| Imu.ImuReader.Initialize | src/imu_reader.cpp:32-52 | the first reading is cached under the calibration in force |
| Imu.ImuReader.UpdateOnce | src/imu_reader.cpp:144-154 | success caches the reading calibrated (roll and pitch less their offsets, yaw less its own up to whole turns), failure leaves the cache |
| Imu.ImuReader.CalibrateZeroOrientation | src/imu_reader.cpp:98-124 | success installs the reading as offsets and caches level; failure changes nothing |
| Imu.ImuReader.SetCalibration | src/imu_reader.cpp:131-134 | replaces the calibration and leaves the cache, already calibrated, as it was |
| ImuCache.CacheIsAReadingUnderAnInstalledCalibration | src/imu_reader.cpp:98-154 | every interleaving: the cache is a received reading under a calibration installed no later than the current one, with roll and pitch less its offsets and yaw less its own up to whole turns |
| ImuCache.LateUpdatesAgree | src/imu_reader.cpp:144-154 | an update begun after the last change stores under the current calibration; in general exactly when it applied after that change |
| ImuCache.UpdateUsesTheCalibrationInForce | src/imu_reader.cpp:144-203 | whatever happens before its store, an update caches its reading under the calibration in force when it took the calibration lock |
| ImuCache.UndisturbedUpdate | src/imu_reader.cpp:144-154 | an update alone caches its reading under the calibration in force |
| ImuCache.SetCalibrationTakesEffect | src/imu_reader.cpp:131-134 | a calibration set by hand leaves the cache and is the one later updates use |
| ImuCache.UndisturbedZero | src/imu_reader.cpp:98-124 | a calibration alone installs its reading as offsets and levels the cache |
| ImuCache.SettledLasts | src/imu_reader.cpp:98-154 | agreement with no older update in flight lasts until the next change |
| ImuCache.InFlightUpdateMayOverwriteAFreshZero | src/imu_reader.cpp:98-154 | a run in which an older update overwrites a fresh zero |
| UnifiedLoop.SlotTakesOnlyMotorReplies | src/motor_controller.cpp:219-275 | whatever reply arrives, a slot takes a motor's status or stays |
| UnifiedLoop.EncoderTakesOnlyEncoderReplies | src/encoder_reader.cpp:174-183 | whatever reply arrives, the encoder cache takes the words of an encoder reply that gets through, and nothing else |
| UnifiedLoop.ImuTakesMotorRepliesToo | src/protocol.cpp:486-504 | a motor reply always passes for an IMU reading, an encoder reply whenever it gets through |
| UnifiedLoop.AlignedIffWholeTurns | src/motor_controller.cpp:261-275 | one turn behind d replies leaves any motor cache aligned exactly when d is a multiple of 8 |
| UnifiedLoop.LoopIsLogged | src/glove_sdk.cpp:153-197 | the concurrent channel logs, request by request, the packets that the turns behind its backlog hear, wherever the loop's request numbers begin |
| UnifiedLoop.LoopAlignsIffWholeTurns | src/glove_sdk.cpp:153-197 | any reachable state with nobody in flight, any first request number, any number of turns, nothing lost, late or overlapping in them: the logged packets are those turns, and the motor cache they leave is aligned exactly when the backlog at the start is a multiple of 8 |
| UnifiedLoop.LoopSensors | src/glove_sdk.cpp:153-197 | over the same turns: the encoder cache holds the last reading that got through if the backlog d is a multiple of 8 and its old words otherwise; the IMU reader takes a motor's status in every turn exactly when (7 - d) modulo 8 is below 6 |
| UnifiedLoop.CountersTellAlignment | src/udp_client.cpp:213-259 | no reset: the backlog is a multiple of 8 exactly when timeouts + receive errors = replies lost, modulo 8; callers see the counters but not the losses, so they can read it off only when nothing was lost |
| Lifecycle.LifecycleIsSafe | src/glove_sdk.cpp:25-212 | every run: initialized means four components; running or a living updater means initialized; no assignment to a joinable thread; no destruction under a living updater; failed initialize ends in the constructed state |
| Lifecycle.CompletedCallsHaveWorked | src/glove_sdk.cpp:25-148 | every call from every reachable state at rest, in every interleaving: initialize ends initialized with four components and a running updater iff configured, or as constructed if a component refused, or unchanged if initialized before; start ends with a living updater if initialized; stop with none; shutdown as constructed |
| Lifecycle.InitializeSucceeds | src/glove_sdk.cpp:25-93 | a fresh initialize whose components all answer ends initialized, all four existing, the updater running iff configured |
| Lifecycle.UpdaterKeepsTheCycle | src/glove_sdk.cpp:153-197 | while it runs the updater makes six motor reads, one encoder read and one IMU read, over and over |
| Lifecycle.StepKeepsInv | src/glove_sdk.cpp:25-212 | each step keeps which components exist at each point, and that flag and updater agree except between store and spawn and between clear and join |
| Lifecycle.StopIsBounded | src/glove_sdk.cpp:138-197 | every run in which the flag was cleared: at most eight updater steps, exactly as many exchanges as its position says and at most six, at most one sleep |
| Lifecycle.EveryCallReturns | src/glove_sdk.cpp:25-148 | under any scheduling an unreturned initialize, start, stop or shutdown has an advancing step enabled and takes at most 18 of them, the updater's during a join included |
| Lifecycle.CallCanReturn | src/glove_sdk.cpp:25-148 | from every reachable state and for all answers of the components, a continuation of at most 18 steps in which the call returns |
| Locks.EveryCallIsDisciplined | src/imu_reader.cpp:32-52 | every call takes locks upward in one order, releases all, and joins holding at most the init lock |
| Locks.EverythingCanFinish | src/glove_sdk.cpp:95-148 | from every reachable state, without new calls: any schedule makes at most as many moves as operations are left, can go on while any is, and some schedule of exactly that many ends every program with every lock free |
| Locks.NoDeadlock | src/imu_reader.cpp:98-124 | every interleaving of any calls by any threads: unfinished work means some thread can move |

## Left out

- 18-byte motor responses: the source reads one byte past the body; the model requires that none arrives.
- Socket calls, address parsing and socket options: their outcome is a parameter (whole, partial or failed send; timeout, error or datagram).
- `send_async` and bare `receive_packet` in the concurrent system: they would only add their own terms to the conservation law.
- Duplicated or reordered datagrams: the reply channel loses and delays only. Replies discarded with a closed socket are lost replies.
- GloveSDK as a class: its fields are read and written by two threads at once, so it is a state machine on values; its forwarding methods are wrappers.
- Lifecycle calls from several controller threads at once: a second overlapping stop returns before the join (src/glove_sdk.cpp:138-146).
- The per-component update threads: the same loop with one component.
- Timestamps, data ages, sleep lengths, logging and failure-count warnings.
- Thread creation failure and weak memory: creation succeeds and atomics are sequentially consistent.
- Move construction and assignment of the client.
- Binary32 rounding, NaN and infinities in IMU angles: their bits are opaque words on the wire and real numbers after decoding. Encoder angles under a calibration set by hand have a closed form here only for scales that are binary fractions, and `EncoderCache` has none set.
- Mutexes inside `Lifecycle` other than the init mutex: `Locks` covers them.
