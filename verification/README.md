# Verification of the CLICK-A payload software

A Dafny model of the parts of the CLICK-A CubeSat payload software that have a clear mathematical or protocol
meaning, with proofs of that meaning. Each module follows one component, keeps its branches, edge cases and
constants, and has the form of its code: classes whose methods change fields, loops over arrays, and
specification functions that those methods are proved against. Verify with `dafny verify dfyconfig.toml`.

What is modelled, and what is proved of it:

- **Pixel grouping** (`PixelGrouping`, `GroupingResults`): the recursive flood fill finds exactly the 8-connected
  components, with the two fail-safes; the one way a frame over the pixel limit gets through is characterised.
- **Box blur** (`FastBlur`): the running sums equal the clamped-window mean, for every pass; the boxes have the spread
  of the radius asked for.
- **Mirror calibration** (`LeastSquares`, `Calibration`): the affine and the sensitivity fit are the unique
  least-squares solutions, defined exactly when the points are not on a line.
- **Pointing process** (`PatMachine`, `PatRuns`, `PatActions`, `PatLimits`): Standby and main loops, seven phases,
  laser, sticky flags and loss timers; over all runs, the safety of everything the process does, exactly when it moves
  the mirror and gives up a spot, and exactly when it does less than one would expect.
- **Spot tracking** (`Tracking`): the quantised window, the choice of the spot, the controller over calibration and
  mirror.
- **Mirror driver** (`Mirror`): the cached position against the DAC's registers, after every single write, with any
  bytes of a command lost.
- **Checksum** (`CrcTable`, `Crc`): the table-driven CRC is bit-by-bit division, and what it detects.
- **Bus framing** (`SyncHunt`, `Framing`, `FramingResults`): segmentation, framing, the marker hunt, acquisition, and
  reading back behind marker-free garbage and through damage.
- **Kernel driver** (`TxQueue`, `TxQueueRuns`, `Exchange`, `BusDownlink`): memory accounting, order, and the transfers
  of an exchange, over all interleavings; which packet an exchange reads and which bytes it hands on, however they are
  cut into transfers; the packetizer's loop over the driver that it writes to, and what a receiver makes of the wire.
- **File transfer** (`FileTransfer`, `FileTransferResults`): cutting, requesting, uplinking in any order, assembling.
- **Downlink coding** (`Interleaver`, `Modulation`, `ModulationResults`, `TxPacket`): interleaving, bit mapping and
  modulation lose nothing; bursts are spread over codewords.
- **Register access and load balancing** (`Futures`, `LoadBalancer`): every future gets its own answer; every command
  goes, in order, to one worker that was ready for it.

`Basics` holds what several of them share.

Some properties one would expect are false of the code. Each is kept as the code has it, replaced by the exact condition
under which the property holds, and shown to fail at an input:

- A frame with more active pixels than the limit is not rejected when some component starts exactly at the limit
  (`MissesOverflow`); isolated pixels over the limit are never rejected (`IsolatedNeverRejected`,
  `OverflowCanBeMissed`).
- The packet length is decoded as `hi << 8 | (lo + 1)`, so a carry out of the low byte is lost when the high byte is
  odd: a packet is read back exactly when its data length is not 510 modulo 512 (`FrameReadBack`, `EndToEnd`; 510 bytes
  in `CarryLost`).
- Full frames are too long for the driver: given room, a message gets out exactly when it has at most 4080 bytes, and
  the packetizer dies of any other, so no message of several frames is ever sent (`BusDownlink.Run`, `FrameFits`; a full
  segment in `LongMessageDies`). The packets of a requested file hold at most 4056 bytes of it then.
- An exchange whose first transfer ends one to five bytes behind the marker hands the payload on behind as many old
  bytes, with its end missing: it is handed on intact exactly when those bytes happen to be right (`FoundIntactIff`,
  `DisplacedDelivery`; a payload of two bytes lost altogether in `PayloadLost`).
- Requesting a file sends it exactly when it has fewer than 65536 chunks, none of more than 65511 bytes, because the
  packet's size is kept in 16 bits (`AutoDownlinkFile`; a file of 65520 bytes in `LongChunkFails`).
- With chunks of one file only, assembly never reports missing chunks: a missing one always ends in an exception
  (`OneTransferVerdict`, `MissingIff`; a file without its second chunk in `MissingUnreported`, reported with a stray one
  in `MissingReported`).
- A calibration run succeeds with fifty points wherever they are; its parameters are defined exactly when the points
  are not on a line (`Calibration.Conclude`, `SuccessCanBeUndefined`).
- While tracking in closed loop, a missing beacon frame does not start the beacon's loss timer: with no
  calibration spot lost, tracking goes on exactly as long as every beacon turn sees the beacon or gets no frame at all
  (`TracksOnExactly`, `OutageUnnoticed`).
- The self test reports a passed laser that never came on, when the last test that had it on passed (`LaserPassExactly`,
  `StalePass`).
- A static-point start leaves the mirror where it is exactly when a static point was set before and no dither step is
  due with calibration and dithering on (`SilentStartExactly`, `SecondStaticPointIsSilent`).
- The controller limits its step upwards only (`StepLimit`; a step through the whole range in `StepDownUnlimited`), and
  the tracking window is cut at the left and upper edge of the canvas only (`UpdateTrackingWindow`; a spot at the right
  edge in `WindowSticksOut`).
- A refused SPI transfer leaves the driver busy for ever (`TxQueueRuns.StuckIff`, `StuckForever`; the first of all in
  `StuckAtOnce`).
- A command to the mirror with lost bytes is never repaired by repeating it. The cache agrees with the DAC exactly when
  the bytes that arrived, over those that the FPGA still held, give the outputs of the position (`LoseCommand`); for one
  lost byte and for whole commands lost, that is spelled out (`OneByteLost`, `WholeCommandsLost`; one byte in
  `LastCommandByteLost`).
- A worker that is sent an empty command is never ready again; a worker gets stuck in no other way
  (`LoadBalancer.StuckIff`, `EmptyCommandSticks`). The repository's own publishers send none, since a command packet
  holds at least its twelve bytes of header (`lib/ipc_packets.py:70-73`).

Assumptions of the model: doubles and floats are reals, and a square root is a non-negative real with the right square;
32-bit pixel counters do not overflow; the packetizer's payload is a mutable byte buffer, as `del pkt_data[:n]`
intends; a serial device delivers a finite stream and then blocks; sockets are first-in first-out; the FPGA passes the
three mirror bytes to the DAC when the last one is written; clock readings never go back. A spot is dated by the last
clock reading of the turn that accepts it, the latest that it can have been seen.

## Model

| member | source | states |
|---|---|---|
| PixelGrouping.Image.PerformPixelGrouping | pat/processing.cpp:64-156 | the result for every frame and threshold, 50 above the mean by default: within both limits, one group per 8-connected component of two or more pixels, with that component's count, sum, maximum and weighted centroid, brightest first; otherwise which rejection or which early listing |
| PixelGrouping.Image.PropagateGroup | pat/processing.cpp:77-107 | the recursive fill from a pixel ends, adds exactly what it reaches to the grouped pixels, accumulates exactly the added pixels, and closes the component unless the pixel limit was passed |
| PixelGrouping.Image.ScanPixel | pat/processing.cpp:111-148 | one step of the raster scan keeps the state of the scan exact, or stops with one of the two rejections |
| PixelGrouping.SortGroups | pat/processing.cpp:152 | the groups come out as a permutation, brightest first |
| PixelGrouping.AcceptedVerdict | pat/processing.cpp:151-155 | a scan that ran to the end gives the promised result, also when the limit was passed unnoticed |
| PixelGrouping.RejectedVerdict | pat/processing.cpp:129-146 | a scan that stopped early gives the promised rejection |
| PixelGrouping.MaxOfIsMaximum | pat/processing.cpp:86 | the accumulated maximum is reached by a pixel of the group and by none exceeded |
| GroupingResults.KeptAll | pat/processing.cpp:111-125 | every component of two or more pixels has a group |
| GroupingResults.KeptApart | pat/processing.cpp:116 | no two groups share a pixel |
| GroupingResults.PixelsConserved | pat/processing.cpp:122-126 | the groups' pixel counts and the isolated pixels add up to the pixels above the threshold |
| GroupingResults.CentroidInBox | pat/processing.cpp:137-138 | a centroid lies in every row and column range that holds its component |
| GroupingResults.IsolatedNeverRejected | pat/processing.cpp:122-134 | any frame of isolated pixels over the limit is not rejected, and answered with 0 groups |
| GroupingResults.OverflowCanBeMissed | pat/processing.cpp:122-134 | so is a full frame of the camera with more than a million bright pixels |
| GroupingResults.DefaultActive | pat/processing.cpp:51-73 | with the default threshold, those pixels are active that are brighter than the exact mean by more than 50 |
| FastBlur.ApplyFastBlur | pat/processing.cpp:161-205 | the image after all passes is that of the plain clamped-window means, rows then columns, for every image that the boxes in use fit into; the boxes are of the two odd widths around the ideal one, the smaller ones first, and their variances add up to that of the radius asked for, up to half of what changing one box would make; a radius below 1 changes nothing |
| FastBlur.BlurLine | pat/processing.cpp:182-187 | the running sums of one line give every pixel the rounded mean of its window, and leave all other pixels alone |
| FastBlur.HorizontalPass | pat/processing.cpp:179-188 | every row is blurred from the image before the pass |
| FastBlur.VerticalPass | pat/processing.cpp:191-200 | every column is blurred from the image before the pass |
| FastBlur.Slide | pat/processing.cpp:185-187 | moving a window one step adds the value that enters and drops the one that leaves, with positions past an end read at that end |
| FastBlur.MeanIsTruncation | pat/processing.cpp:177-187 | truncating the mean plus one half is rounding it |
| FastBlur.PassesBetween | pat/processing.cpp:173-202 | no number of passes takes a pixel outside the range of the input pixels |
| FastBlur.PassesUnique | pat/processing.cpp:173-202 | the input image and the radii determine the output |
| Calibration.FitLinear | pat/calibration.cpp:336-357 | the accumulated products and the inverse matrix give the unique best linear map, and exist exactly when the points are not on a line through the origin |
| Calibration.Calibration.CalculateAffineParameters | pat/calibration.cpp:305-359 | the points are left centred; the parameters are defined exactly off a line, are then the unique minimum of the squared error over all affine maps, and recover any map that fits exactly |
| Calibration.Calibration.CalculateSensitivityMatrix | pat/calibration.cpp:364-400 | the matrix is the unique best linear map on the steps between the points of the first quarter, defined exactly when those steps are not on a line through the origin; points that a map fits exactly give back its linear part |
| Calibration.Calibration.Conclude | pat/calibration.cpp:287-295 | a run succeeds with fifty points or more wherever they are; then both fits are what they should be |
| Calibration.Calibration.AffineTransform | pat/calibration.cpp:403-414 | the centre of the points of a fit goes to the centre of their mirror positions, exactly mapped points go where they belong, and no other mirror position fits a spot |
| Calibration.Calibration.TransformDelta | pat/calibration.cpp:417-428 | with exactly mapped points, the mirror step for a step on the detector is that between the mirror positions of the two spots |
| Calibration.ExactStepsRecovered | pat/calibration.cpp:369-399 | the best linear map on the steps of exactly mapped points is the linear part of their map |
| Calibration.FitBest | pat/calibration.cpp:353-358 | no other affine map has as small a squared error on the original points |
| Calibration.LinearFitBest | pat/calibration.cpp:396-399 | no other linear map has as small a squared error |
| Calibration.CentredSingularIff | pat/calibration.cpp:349-350 | the determinant of the centred points vanishes exactly when all points are on one line |
| Calibration.ExactMapRecovered | pat/calibration.cpp:353-358 | points that some map sends exactly where they belong give back that map |
| Calibration.DeltasOfCentred | pat/calibration.cpp:291-292 | centring does not change the steps, so the order of the two fits does not matter |
| Calibration.SuccessCanBeUndefined | pat/calibration.cpp:288-295 | spots on a line of the detector, with any mirror positions, make a run that succeeds with both fits undefined |
| LeastSquares.NormalEquations | pat/calibration.cpp:349-356 | the inverse-matrix formula leaves a residual orthogonal to both coordinates |
| LeastSquares.BestResidual | pat/calibration.cpp:301-303 | an orthogonal residual only grows by what is added to it, and stays only when nothing is |
| LeastSquares.SingularIff | pat/calibration.cpp:392-393 | the determinant vanishes exactly when all points are on a line through the origin |
| PatMachine.Pat.SwitchLaserOn | pat/main.cpp:69-96 | the laser is commanded on only once its heater is confirmed on, and counts as on only when the command is acknowledged |
| PatMachine.Pat.TestLaser | pat/main.cpp:728-750 | one on/off round passes exactly when both commands and both looks do |
| PatMachine.Pat.RunLaserTest | pat/main.cpp:930-975 | the rounds that passed are counted afresh only when the laser comes on |
| PatMachine.Pat.RunSelfTest | pat/main.cpp:907-1046 | the whole state after a self test, with its report, for any answers |
| PatMachine.Pat.StandbyTurn | pat/main.cpp:512-1062 | the state after each Standby command: which flags it sets, which phase it enters, what it does to laser and mirror |
| PatMachine.Pat.RunCalibration | pat/main.cpp:1151-1175 | calibration is tried only with the laser on, and leads to acquisition exactly when it succeeds |
| PatMachine.Pat.RunAcquisition | pat/main.cpp:1178-1243 | acquisition runs only with the laser off; where each outcome leads, and when the mirror is steered |
| PatMachine.Pat.TrackBeacon | pat/main.cpp:1264-1388 | of all nested checks on a beacon frame: when the beacon counts as seen, when its loss timer starts, and that a missing frame does neither |
| PatMachine.Pat.RunClBeacon | pat/main.cpp:1263-1401 | one beacon turn of closed-loop tracking, with its timeout |
| PatMachine.Pat.TrackCalib | pat/main.cpp:1405-1547 | of all nested checks on a calibration frame: when the spot counts as seen and the mirror is controlled, which failures count as a loss, and when a dither step is counted |
| PatMachine.Pat.RunClCalib | pat/main.cpp:1404-1561 | one calibration turn of closed-loop tracking, with its timeout |
| PatMachine.Pat.TrackOpenLoop | pat/main.cpp:1565-1732 | the beacon frame in open loop, where a missing frame is a loss, and the mirror follows unless aligning |
| PatMachine.Pat.RunOpenLoop | pat/main.cpp:1564-1746 | one turn of open-loop tracking, with its timeout |
| PatMachine.Pat.RunStaticPoint | pat/main.cpp:1749-1800 | the mirror is set once, and dithered afterwards only with calibration |
| PatMachine.Pat.MainTurn | pat/main.cpp:1065-1808 | one turn of the main loop: commands first, then the phase |
| PatRuns.Process | pat/main.cpp:506-1811 | the nested Standby and main loops are the one step of either kind after the other, until the process ends |
| PatRuns.RunsAreSafe | pat/main.cpp:506-1811 | on every run: pixel steering only after a successful calibration; beacon frames only with the laser confirmed off and calibration frames only with it confirmed on; the laser commanded on only right after its heater was confirmed on; a spot given up only after more than three seconds without it |
| PatRuns.EverythingAllowed | pat/main.cpp:506-1811 | the same of each single thing done, against exactly what was done before it |
| PatRuns.FallsBackLate | pat/main.cpp:1388-1399 | a timeout comes more than three seconds after every turn that began with the spot known |
| PatRuns.AlignmentSticks | pat/main.cpp:777-783 | after a beacon alignment no command ever leads back to closed-loop tracking |
| PatActions.MovesExactly | pat/main.cpp:506-1811 | on every run from every state, the numbers of control steps, of settings from pixel positions and of centrings are those of the turns whose answers call for one: in closed loop exactly with the laser confirmed on and a bright enough spot close to the last one |
| PatActions.AsksExactly | pat/main.cpp:506-1811 | on every run, the laser is asked for and put out, frames are taken and calibrations run exactly as often as phases and commands call for it |
| PatActions.SightsAreFollowed | pat/main.cpp:1405-1460 | on every run, each calibration spot seen is followed at once by a control step, there is no other step, and each spot is seen on a frame just taken for it |
| PatActions.GivenUpExactly | pat/main.cpp:1263-1746 | a spot lost in one turn and missed in all that follow is given up by a turn that looks for it exactly when its clock shows more than three seconds since the loss |
| PatActions.TurnExactly | pat/main.cpp:506-1811 | into which phase every turn leads, and which spots are known after it, by commands, answers, frames and clock |
| PatActions.PointingExactly | pat/main.cpp:1749-1800 | which turns count a dither step, what starts the count again, and when a static point counts as set |
| PatActions.SelfTestExactly | pat/main.cpp:907-1046 | what the self test reports of laser, mirror and calibration, and when it counts as passed or failed for good |
| PatActions.FlagsExactly | pat/main.cpp:512-1062 | a flag is set on a run exactly when a command for it was taken in Standby |
| PatLimits.TracksOnExactly | pat/main.cpp:1263-1561 | over any turns: closed-loop tracking goes on with no loss timer running if and only if no calibration turn loses its spot and every beacon turn sees the beacon or gets no frame |
| PatLimits.OutageUnnoticed | pat/main.cpp:1373-1376 | a reachable run in which the beacon was last seen in the third second and is still tracked after any number of seconds |
| PatLimits.SilentStartExactly | pat/main.cpp:1749-1800 | a static-point start sends nothing to the mirror, for as long as it lasts, if and only if a static point was set before and no dither step is due |
| PatLimits.SecondStaticPointIsSilent | pat/main.cpp:1749-1800 | a reachable process that pointed at a beacon and is then told to point straight leaves its mirror where the beacon was |
| PatLimits.LaserPassExactly | pat/main.cpp:932-977 | when the self test reports a passed laser |
| PatLimits.StalePass | pat/main.cpp:942-977 | two self tests of which the second reports a passed laser that never came on |
| Tracking.UpdateTrackingWindow | pat/tracking.cpp:371-428 | a window stays exactly when both sides are within 40 of the spot width plus 50 and the spot is at least the larger of 25 and its width from all four edges; any other becomes one aligned to 16 and 8, at most 30 larger than wanted, with the spot more than half its width plus 22 from every edge that the canvas does not cut, covering all of the square around the spot that is not left of or above the canvas, and sticking out of the canvas exactly when that square does |
| Tracking.UpdatesSettle | pat/tracking.cpp:371-428 | the same spot on the next frame leaves the window as the first frame made it |
| Tracking.WindowSticksOut | pat/tracking.cpp:371-428 | a window that reaches beyond the canvas |
| Tracking.QuantisedCovers | pat/tracking.cpp:390-416 | on one axis: alignment, cover, an excess of less than a step on either side, and the canvas |
| Tracking.FindSpotCandidate | pat/tracking.cpp:432-467 | the first group with the smallest difference in position, size and half brightness, or group 0 when none is below the limit; the difference is 0 exactly when the last spot is there unchanged |
| Tracking.DifferenceAddsUp | pat/tracking.cpp:432-467 | a group differs from the last spot by what it moved on both axes, its pixels more and half its brightness more, or by what it moved alone when no size is known |
| Tracking.Tracking.Control | pat/tracking.cpp:486-529 | the errors are taken through the sensitivity matrix, integrated and limited; the actions are in range afterwards whatever they were before, and the mirror is commanded there |
| Tracking.Tracking.ControlOpenLoop | pat/tracking.cpp:471-482 | the mirror is commanded where the calibration maps the spot |
| Tracking.ControlApproaches | pat/tracking.cpp:486-523 | with exactly mapped points the controller gets closer to the set point's mirror position on both axes, and never overshoots |
| Tracking.Converges | pat/tracking.cpp:486-523 | the controller's step, repeated at intervals of any least length from anywhere in the range, comes as close to a fixed target as one likes within a number of steps that does not depend on the start |
| Tracking.StepLimit | pat/tracking.cpp:502-521 | a step up never exceeds the limit; a step down stays in it exactly when the unlimited step does |
| Tracking.StepDownUnlimited | pat/tracking.cpp:486-529 | a call of the controller that takes the mirror from one end of the range to the other |
| Mirror.CodeInRange | pat/fsm.cpp:55-60 | clamping, truncating and cutting to 16 bits keeps the code and its range |
| Mirror.FSM.constructor | pat/fsm.cpp:11-32 | with acknowledged writes, the DAC has executed reset, reference, all channels and software update in this order, the mirror is centred and the cache agrees with the DAC |
| Mirror.FSM.FsmWrite | pat/fsm.cpp:113-146 | a byte is only sent once the bias is confirmed on |
| Mirror.FSM.SendCommand | pat/fsm.cpp:88-97 | three acknowledged writes are one DAC command on one register, and the outputs do not move before the last |
| Mirror.FSM.SetNormalizedAngles | pat/fsm.cpp:45-75 | with acknowledged writes, cache and DAC agree afterwards exactly when the position changed or they agreed before; the outputs are the old ones, then the new ones, and nothing between |
| Mirror.FSM.ForceTransfer | pat/fsm.cpp:78-85 | with acknowledged writes, cache and DAC agree afterwards whatever the DAC held |
| Mirror.Steer | pat/fsm.cpp:45-85 | over any history of acknowledged commands: agreement after each, and after every single write both channel pairs sum to twice the bias with all codes from 10000 to 34000 |
| Mirror.LoseCommand | pat/fsm.cpp:45-97 | whichever bytes of a position's commands reach the FPGA: the cache agrees with the DAC afterwards exactly when nothing was to move or what arrived, over the bytes the FPGA held, makes the outputs those of the position; the same position is skipped whatever was lost, a forced transfer or another position repairs it |
| Mirror.OneByteLost | pat/fsm.cpp:63-97 | for each of the twelve bytes, for which positions losing it does no harm |
| Mirror.WholeCommandsLost | pat/fsm.cpp:63-75 | with commands lost as a whole, which of the four have to get through for the outputs to be those of the position |
| Mirror.LastCommandByteLost | pat/fsm.cpp:63-97 | a mirror at the centre that loses one byte of a command to the end of both axes disagrees with its cache, and still does after the command is repeated |
| Crc.CrcUpdate | bus/driver/crc.c:48-57 | the table-driven loop is division by the polynomial, bit by bit, from any start value |
| Crc.TableStep | bus/driver/crc.c:53-54 | one table step is eight bits of division |
| CrcTable.Lookup | bus/driver/crc.c:11-45 | every table entry is its index shifted eight times through the polynomial |
| Crc.Composes | bus/driver/crc.c:48-57 | the checksum of a concatenation goes on from that of its first part |
| Crc.SelfCheck | bus/driver/crc.c:48-57 | a message with two more bytes has checksum 0 exactly when they are its checksum, high byte first |
| Crc.BurstDetected | bus/driver/crc.c:48-57 | two bit strings that differ only within sixteen bits have different checksums |
| Crc.AdjacentBytesDetected | bus/driver/crc.c:48-57 | two messages that differ only in two adjacent bytes have different checksums |
| SyncHunt.HuntAutomaton | bus/depacketizer.py:69-79 | the byte automaton stops at the end of the first marker of any stream |
| SyncHunt.HuntRegister | bus/driver/driver.c:70-77 | the 32-bit shift register stops at the same byte |
| SyncHunt.MarkerAfterGarbage | bus/depacketizer.py:26 | the marker overlaps no shift of itself: behind marker-free bytes it is found where it ends |
| Framing.Segment | bus/packetizer.py:44-113 | the frames of a payload: full segments first, flags first, continuation, last or standalone, counts from 0 |
| Framing.BuildFrame | bus/packetizer.py:54-73 | marker, header fields, data and checksum of one frame |
| Framing.Packetizer.HandleTxPkts | bus/packetizer.py:36-113 | the oldest message, and nothing else, is segmented behind the frames that wait |
| Framing.Packetizer.SendBusPkts | bus/packetizer.py:115-122 | the oldest frame, and nothing else, is taken off and written to the driver; it is lost when the driver refuses it, with an exception when that is for want of memory |
| Framing.Depacketizer.FindMarker | bus/depacketizer.py:69-79 | the stream is read up to the end of its first marker |
| Framing.Depacketizer.AcquireBusPkt | bus/depacketizer.py:64-108 | what is taken from the stream, and whether it is kept or sent as an error |
| Framing.LengthExact | bus/depacketizer.py:86 | the decoded length is right exactly when the low byte is below 255 or the high byte even |
| FramingResults.Fields | bus/packetizer.py:60-69 | a packet's flag, count, APID and data are read back from its bytes, cut to 14 and 11 bits |
| FramingResults.FrameReadBack | bus/depacketizer.py:64-102 | behind any marker-free bytes, a packet is read back exactly when its data length is not 510 modulo 512 |
| FramingResults.CarryLost | bus/depacketizer.py:86 | a packet with 510 bytes of data is taken for one of 256 and never read back |
| FramingResults.Drain | bus/depacketizer.py:223-231 | the acquisition loop keeps exactly the accepted packets of the stream, in order |
| FramingResults.StreamReadBack | bus/depacketizer.py:64-102 | any packets of right length and checksum, with marker-free bytes around each, are all read back in order |
| FramingResults.SegmentsCarry | bus/packetizer.py:53-113 | all packets of a payload can be read back exactly when its last segment does not lose the carry |
| FramingResults.MessagesRebuilt | bus/packetizer.py:48-113 | a strict receiver by flags and counts rebuilds every message from its packets |
| FramingResults.EndToEnd | bus/depacketizer.py:64-102 | behind any marker-free bytes each, exactly the packets sent are accepted if and only if no carry is lost, and then they rebuild the messages |
| FramingResults.WholeCrcZero | bus/depacketizer.py:93-101 | a packet holds its checksum exactly when the checksum over all of it is 0 |
| FramingResults.DamageRejected | bus/depacketizer.py:93-108 | two adjacent damaged bytes outside the length field make the packet be refused |
| FramingResults.BacklogIff | bus/packetizer.py:36-113 | there are more frames than messages, and so than turns of the loop to write them in, exactly when a message needs more than one |
| BusDownlink.Run | bus/packetizer.py:124-134 | the loop over the kernel driver ends exactly at the first message that is longer than 4080 bytes or finds no room; until then every message is queued once, whole and in order unless the kernel fails to copy it, and no frame waits; that message is lost from its first frame on |
| BusDownlink.FrameFits | bus/driver/main.c:105-113 | the driver's length limit lets a frame pass exactly when its data has at most 4080 bytes |
| BusDownlink.LongMessageDies | bus/packetizer.py:115-134 | a message of one full segment ends the loop at once, with nothing queued |
| BusDownlink.Downlink | bus/driver/driver.c:39-53 | over any run of the packetizer and anything the driver does in between and afterwards: from the bytes that the controller was given, a depacketizer accepts exactly the packets of the first messages queued, and rebuilds the messages, if and only if none of them loses a carry; of all of them once the queue is empty |
| BusDownlink.WireReadBack | bus/driver/main.c:125 | the same of any messages on the wire |
| BusDownlink.DriverReadsHeader | bus/driver/driver.c:90-96 | the kernel driver reads the length of a packet right, also where the depacketizer loses the carry, and its APID |
| TxQueue.Driver.PacketWrite | bus/driver/main.c:101-139 | a write is queued and accounted for exactly when it fits both limits and memory and copy succeed; the packet queued last holds the bytes written between four zeros on either side; what it returns otherwise |
| TxQueue.Driver.TxQueueClear | bus/driver/main.c:32-43 | all queued packets are freed and accounted for |
| TxQueue.Driver.InterruptHandler | bus/driver/driver.c:39-53 | an idle driver hands its oldest packet over, or reads; a busy one does nothing |
| TxQueue.Driver.HuntMarker | bus/driver/driver.c:70-88 | the register hunt consumes the bytes up to the first marker |
| TxQueue.Driver.ReadHeader | bus/driver/driver.c:90-112 | APID and length are taken from the bytes of the buffer behind the marker; a length of a packet that can be is taken over, and its missing bytes asked for at the place the pointer has by then; any other ends the exchange |
| TxQueue.Driver.SpiXferComplete | bus/driver/driver.c:56-148 | the whole state after a completion: the sent packet freed once, the bytes placed in the buffer, and either one more transfer or the end, with what goes into the receive fifo |
| TxQueueRuns.RunsKeep | bus/driver/main.c:18-30 | on every interleaving: the memory count is that of the queued and sent packets, between 0 and its limit; every accepted packet is queued, was taken by the controller, once and in order, or is in hand for a transfer that was refused; one transfer at most is outstanding, three at most per exchange |
| TxQueueRuns.CompleteKeeps | bus/driver/driver.c:56-148 | a completion ends the exchange or moves it to its next stage |
| TxQueueRuns.ExchangeEnds | bus/driver/driver.c:56-148 | without refusals, an exchange ends after at most three transfers, whatever comes in |
| Exchange.ExchangeReads | bus/driver/driver.c:56-148 | however the bytes are cut into transfers, an exchange ends with length and APID of the packet behind the first marker, all of it there, exactly when its header is one of a packet that can be; what the receive fifo gets of it, byte by byte |
| Exchange.FoundIntactIff | bus/driver/driver.c:78-98 | what is handed on is the packet of the stream exactly when the first transfer did not end one to five bytes behind the marker, or the old bytes there are what the displaced payload would have been |
| Exchange.DisplacedDelivery | bus/driver/driver.c:70-142 | an exchange from any idle state whose first transfer ends one to five bytes behind the marker hands on as many old bytes of the buffer and the payload without its end |
| Exchange.PayloadLost | bus/driver/driver.c:70-142 | a new driver with four bytes of the header in its first transfer hands on two bytes of 0 for a payload of 7 and 9 |
| TxQueueRuns.StuckIff | bus/driver/driver.c:32-35 | the driver gets stuck exactly when a transfer it asks for is refused |
| TxQueueRuns.StuckForever | bus/driver/driver.c:42-50 | a stuck driver never hands a packet over again |
| TxQueueRuns.StuckAtOnce | bus/driver/driver.c:39-53 | a driver whose first transfer is refused never hands a packet to the controller |
| FileTransfer.Staging.DisassembleFile | commandhandler/filehandling.py:74-101 | the chunk files are the pieces of the file, numbered from 1; their count is reported if it fits into two bytes, and an exception otherwise; a chunk size of 0 only leaves the hash |
| FileTransfer.Staging.RequestFile | commandhandler/filehandling.py:103-156 | which chunks are sent, in which order, and exactly when and where the request fails: at the first chunk that is missing or that its packet cannot hold |
| FileTransfer.Staging.UplinkFile | commandhandler/filehandling.py:158-173 | one chunk is staged under its numbers, cut to its length, unless its number is beyond the sequence; all others stay |
| FileTransfer.Staging.AssembleFile | commandhandler/filehandling.py:175-261 | the outcome for every listing, with the list of missing places, and the file written on success |
| FileTransfer.CutCount | commandhandler/filehandling.py:76 | a file has exactly as many pieces as its length divided by the size, rounded up |
| FileTransferResults.CutJoins | commandhandler/filehandling.py:79-93 | the pieces of a file, in order, are the file |
| FileTransferResults.CutSizes | commandhandler/filehandling.py:79-93 | every piece but the last is full, and none is empty |
| FileTransferResults.SuccessIff | commandhandler/filehandling.py:204-239 | assembly succeeds exactly when the first sorted names are 1 to n of n |
| FileTransferResults.FaultDecides | commandhandler/filehandling.py:204-221 | the first fault among the names asked for decides between an exception, the error of a name and that of a count |
| FileTransferResults.MisplacedAre | commandhandler/filehandling.py:228-239 | the missing places reported are those that hold a wrong number, in order |
| FileTransferResults.OneTransferVerdict | commandhandler/filehandling.py:204-239 | with chunks of one file only: success if all are there, an exception otherwise |
| FileTransferResults.MissingIff | commandhandler/filehandling.py:204-239 | missing chunks are reported exactly when as many first names as the first one says are of its length, and one of them is not in its place |
| FileTransferResults.MissingNeedsStray | commandhandler/filehandling.py:228-239 | that takes a foreign name in the directory |
| FileTransferResults.MissingUnreported | commandhandler/filehandling.py:204-239 | a transfer of three chunks without its second ends in an exception |
| FileTransferResults.MissingReported | commandhandler/filehandling.py:204-239 | a transfer of two without its second is reported when a stray third is there |
| FileTransferResults.AnyOrder | commandhandler/filehandling.py:158-261 | pieces uplinked in any order, with any repeats, assemble to the file exactly when all came |
| FileTransferResults.AutoDownlinkFile | commandhandler/filehandling.py:44-52 | cutting and requesting a file sends it whole, in order, exactly when it is not empty, has fewer than 65536 chunks and none of more than 65511 bytes; otherwise it fails with nothing sent |
| FileTransferResults.LongChunkFails | commandhandler/filehandling.py:143-152 | a file of 65520 bytes as one chunk is not sent |
| FileTransferResults.RoundTrip | commandhandler/filehandling.py:103-261 | the packets of a downlinked file, uplinked in any order, assemble to the file |
| Interleaver.IntrlvData | fpga/deprecated/interleaver.py:121-160 | whole frames of whole codewords are interleaved one by one; anything else is an error |
| Interleaver.DeintrlvData | fpga/deprecated/interleaver.py:162-203 | the same for deinterleaving |
| Interleaver.RoundTrip | fpga/deprecated/interleaver.py:121-203 | deinterleaving undoes interleaving, over any number of frames |
| Interleaver.BurstDispersed | fpga/deprecated/interleaver.py:145-149 | a burst of rows times b consecutive symbols damages at most b symbols of any codeword |
| Interleaver.ReceivedAreRows | fpga/deprecated/interleaver.py:188-192 | the codewords of the burst bound are those that deinterleaving puts out |
| Modulation.Bitmask | fpga/deprecated/package_data_functions.py:76-122 | frame bytes and words of the right size for every frame, and one frame byte at the end; an error for an unknown order or no frames |
| Modulation.SoftwareModulator | fpga/deprecated/package_data_functions.py:125-194 | the orders and symbols of any byte stream |
| Modulation.DigitsLossless | fpga/deprecated/package_data_functions.py:91-95 | cutting bits into words loses nothing exactly when they come out even |
| ModulationResults.FrameLossless | fpga/deprecated/package_data_functions.py:172-180 | reading a frame's symbols as log2(M)-bit numbers gives back its bits exactly when they fill its words |
| ModulationResults.StreamModulated | fpga/deprecated/package_data_functions.py:134-180 | no data byte is taken for a frame byte: every frame's symbols follow one acquisition sequence |
| ModulationResults.AcquisitionsAgree | fpga/deprecated/package_data_functions.py:133-135 | all orders acquire by one sequence, in symbols of their own size |
| ModulationResults.AcquisitionTells | fpga/deprecated/package_data_functions.py:133-135 | any three symbols of an acquisition sequence in a row tell where in it they stand |
| ModulationResults.AllSymbolsBelow | fpga/deprecated/package_data_functions.py:134-180 | every symbol is one that the order can send |
| ModulationResults.AllFramesReceived | fpga/deprecated/package_data_functions.py:76-194 | a receiver that knows order and frame length reads back the bits of every frame |
| ModulationResults.LengthDataPerFrame | fpga/deprecated/package_data_functions.py:9-34 | the codewords are the least count with which a frame is on air for the time asked for and fills whole words, at most one word's bytes more than lasting that long takes; the length follows from it |
| ModulationResults.FrameLengthFills | fpga/deprecated/package_data_functions.py:27-32 | such a frame fills its words |
| ModulationResults.SymbolCount | fpga/deprecated/package_data_functions.py:170-180 | a frame that fills its words has as many symbols as its bits divided by log2(M) |
| ModulationResults.ChainLosesNothing | fpga/deprecated/interleaver.py:121-203 | data interleaved and bit-mapped is what a receiver recovers from the modulator's output |
| ModulationResults.Downlink | fpga/deprecated/package_data_functions.py:9-194 | the whole chain, with the frame length it computes: there is an output exactly for data of whole frames of whole codewords, and the data is recovered from it |
| ModulationResults.BytesOfBits | lib/tx_packet.py:65-69 | turning bits back into characters undoes turning characters into bits |
| TxPacket.Packet.Pack | lib/tx_packet.py:29-45 | the transmitter packet is the bit-mapped single frame between its frame bytes |
| Futures.Client.Receive | lib/ipc_helper.py:153-173 | answers are taken up to the target's, the checks on token, address and direction never fail, and the pending futures stay exactly the unanswered ones |
| Futures.Client.Wait | lib/ipc_helper.py:60-62 | a wait gives the answer to the future's own request, and takes no answer that is not needed |
| Futures.Client.WriteRegAsync | lib/ipc_helper.py:91-131 | a write is sent, its value encoded, with the next token, and its future is pending last |
| Futures.PayloadRoundTrip | lib/ipc_helper.py:103-119 | every value is sent as whole registers, and read back from them |
| Futures.TokensClash | lib/ipc_helper.py:72-74 | which requests share a token |
| Futures.Session | lib/ipc_helper.py:76-173 | any mix of reads, writes and waits in any order gives every wait its own answer |
| LoadBalancer.System.SendRequest | lib/ipc_loadbalancer.py:74-83 | the oldest command goes to the first ready worker, or the router is blocked |
| LoadBalancer.System.PollRequest | lib/ipc_loadbalancer.py:40-50 | a worker gets the command on its way, if there is one; an empty one leaves it stuck |
| LoadBalancer.System.Finish | commandhandler/commandhandler.py:304-308 | a worker is done with its command before it says that it is ready |
| LoadBalancer.Play | commandhandler/router.py:50-67 | any interleaving: commands are dispatched in the order they arrived, each to one worker that was ready since its last one; a relay sends one whenever there are both; none is lost, and every worker that is not stuck holds one token |
| LoadBalancer.RelaysDeliver | commandhandler/router.py:50-67 | as many relays as commands wait send, in order, all that there are ready workers for |
| LoadBalancer.BlockedMeansBusy | commandhandler/router.py:67 | the router is only blocked while every worker has a command or is stuck |
| LoadBalancer.StuckIff | commandhandler/commandhandler.py:304-305 | a worker is stuck exactly when it took an empty command, and never without one |
| LoadBalancer.EmptyCommandSticks | commandhandler/commandhandler.py:304-305 | one worker and one empty command leave nobody ready |

## Left out

- Sockets, SPI and USB transfers, kernel allocation, logging, image files, systemd: their results are parameters.
- Floating-point rounding and NaN; 32-bit overflow of pixel sums and of the frame histogram.
- `Image` construction, histogram and thresholds other than the mean threshold of the grouping.
- `FastBlur.ApplyFastBlur`: demands that every box in use fits into the image, because the code reads outside it
  otherwise, and fewer than 128 passes, because it counts them in eight bits.
- Exposure tuning loops (`findExposureRange`, `autoTuneExposure`, `controlExposure`): only simple bounds.
- Positions, exposures, windows and offsets in the pointing process: its model has phases, flags, knowledge, timers and commands.
- `PatMachine.Pat.StandbyTurn`: does not model the commands that only set windows, exposures, beacon positions or offsets, because they touch no modelled state.
- The camera initialisation loop before the pointing process, but for its two ways out.
- Reassembly of several bus packets in `handle_bus_pkts`, whose completeness test looks for the first-of-group flag; the receiver of `FramingResults.MessagesRebuilt` is a strict one by the standard instead.
- Decoding of IPC packets into APID and payload; a payload beyond 65527 segments is not excluded.
- `TxQueue.Driver.SpiXferComplete`: takes the receive buffer to reach as far as it is written, and room in the receive FIFO
  as a parameter.
- `TxQueue.Driver.PacketWrite`: demands writes below 65528 bytes; beyond, the padded length wraps in its 16 bits and the
  code writes past the packet, of which no state of the queue speaks. No frame is as long.
- `BusDownlink.Run`: takes the packetizer to be the only writer of the device, as it is in the repository.
- `FramingResults.DamageRejected`: excludes the length field, because a packet cut elsewhere can hold a right checksum.
- `validate_file`, `auto_assemble_file`, moving and deleting files; MD5 is any function of the file.
- Opening the output file of an assembly, and the two-byte limits of its report.
- `ModulationResults.LengthDataPerFrame`: takes the symbol rate and the code rate as exact numbers.
- Padding of files to frames, and Reed-Solomon coding, which is not part of this repository's own code.
- `fpga/deprecated/modulator.py`, laser alignment and the transmitter's FIFO.
- Timeouts, error answers and packing of single registers by their types in `lib/ipc_helper.py`; process restarts in the load balancer.
- `LoadBalancer.System.SendReady`: the order in which the sockets queue ready messages of different workers is any order.
