# Verified model of libera-laser's stream logic

libera-laser feeds laser points to hardware. This project models, in Dafny, the state machines and
stream transformers between the host's frames and a device, and proves what they promise over whole
runs. Files follow the program: one module per component, in a file of the same name.

| modules | component |
|---|---|
| `FrameScheduler`, `FrameTrace`, `FrameBounds`, `FrameBacklog`, `FrameHold`, `FrameFreshness`, `FrameSelection` | the frame queue (`src/core/FrameScheduler.cpp`) |
| `Bytes`, `LsNetCrc`, `LsNetCrcRemainder`, `LsNetPacket`, `LsNetBursts`, `LsNetReceiver`, `PatternFit` | LS-Net codec, TCP resynchronisation, pattern shortening (`src/lightspacenet`) |
| `BoundarySearch`, `BoundaryPreferences`, `PointStreamFramer` | cutting a point stream into frames (`src/core/PointStreamFramer.cpp`) |
| `PostProcessor`, `PostProcessorLaws` | startup and disarm blanking, scanner sync (`src/core/LaserControllerStreaming.cpp`) |
| `BufferEstimator`, `FrameTransport` | buffer arithmetic and submission projection (`src/core/BufferEstimator.cpp`, `src/core/LaserController.cpp`) |
| `EtherDream`, `EtherDreamProgress` | the Ether Dream playback machine and its start-up (`src/EtherDream/EtherDreamController.cpp`) |
| `Decimal`, `HeliosLabels`, `HeliosFrame` | Helios labels, identifiers and frame adaptation (`src/helios`) |
| `IdnIdentity` | IDN slot identities (`src/idn/IdnManager.cpp`) |
| `AckRing` | LaserCube acknowledgement accounting (`src/lasercubenet/LaserCubeNetController.cpp`) |
| `LaserPoints`, `Options`, `Arithmetic` | shared data |

Code that mutates objects is modelled by a class whose methods are proved equal to a specification
function of the old state; the theorems are lemmas about those functions and about sequences of calls.
Each mutex-guarded public method is one atomic step. `hide` statements only keep definitions a
proof does not need away from the solver.

`dafny verify dfyconfig.toml` checks everything.

## Where the code falls short of its promise

- **`fillPoints` can exceed its maximum.** Its idle branches append the full minimum of blanks even after
  leftover transition points were drained in the same call. `FrameBounds.PointFillBounds` gives the
  exact condition, `UnpacedRequestOverfills` a run that does it, and `EveryPacedRunFits` shows that
  requests whose render estimates advance by the play time of what the previous one emitted never do.
- **`fillFrame` can exceed its maximum.** Content is capped by the whole maximum, not by what is left
  behind transition points. `FrameBounds.FrameFillBounds` gives the exact condition,
  `OneLeftoverPointOverfills` a run that does it; the output is always shorter than twice the maximum.
- **A stale transport estimate comes back to life.** Play-out since the last submission is converted to a
  32-bit integer; after about twenty hours of silence at 30 000 points per second it wraps and a large
  backlog is carried over. `FrameTransport.CarriesNothingExactly` is the exact condition,
  `StaleEstimateWraps` the witness.
- **An Ether Dream with a buffer of 256 points or fewer never starts.** The begin threshold is then the
  whole buffer, and one point of it is always kept free
  (`EtherDreamProgress.IdleDeviceStartsExactlyWhenLargeEnough`).
- **An Ether Dream data packet may fill the device to its last point.** While playing, the projected
  fullness is rounded to nearest and can be one point too low; the write headroom of one point covers
  that and no more. No packet exceeds the free space (`EtherDreamProgress.DataPacketsFit`), but a device
  that wants one point left refuses some (`RoundedPacketIsRefused`); `OnePointStaysFreeExactly` says
  when it cannot.
- **A Helios frame can be accepted and sent with no points.** `HeliosFrame.ZeroPointFrameExactly` says
  exactly when, `ZeroPointFrameOccurs` shows one. (Frames keep the vendor's minimum rate exactly when that constant is at most 22:
  `HeliosFrame.MinimumRateKeptExactly`.)
- **A pattern cut to two points does not end where it should.** `PatternFit.FittedEndsInPlaceExactly`,
  with the pattern in `TwoPointLimitEndsElsewhere`.
- **The dark tail of a cut pattern may never settle.** Its length can alternate for all eight rounds, and
  the pattern then ends with a jump although a finely spaced move would have fitted
  (`PatternFit.TailMayNeverSettle`). `FittedMoveIsFineExactly` gives the exact condition on the tails the
  pattern wants. If cutting further back never needs a longer move, the jump cannot occur, and the move
  is fine exactly when the limit has room for the move from the first point
  (`FineWhenCuttingBackNeverLengthens`); otherwise some cut further back needs a longer move
  (`CoarseMoveNeedsARise`), which alone is not enough (`FineDespiteARise`).

## Model

| member | source | states |
|---|---|---|
| `FrameScheduler.Scheduler.EnqueueFrame` | src/core/FrameScheduler.cpp:72-81 | a non-empty frame joins the pending frames and sets the nominal size; an empty one is refused |
| `FrameScheduler.Scheduler.TryEnqueueFrameIfReady` | src/core/FrameScheduler.cpp:83-105 | a frame is taken if and only if it is not empty, the lock is free and the queued cost is within the budget |
| `FrameScheduler.Scheduler.IsReadyForNewFrame` | src/core/FrameScheduler.cpp:115-119 | ready if and only if the queued cost is within the budget |
| `FrameScheduler.Scheduler.Reset` | src/core/FrameScheduler.cpp:107-113 | queue, pending frames and leftover transition are gone |
| `FrameScheduler.Scheduler.QueuedPointCount` | src/core/FrameScheduler.cpp:460-486 | the two counting loops give the cost of the whole queue |
| `FrameScheduler.Scheduler.DrainPendingFrames` | src/core/FrameScheduler.cpp:488-493 | pending frames join the queue in order |
| `FrameScheduler.Scheduler.GenerateTransitionPoints` | src/core/FrameScheduler.cpp:507-535 | the pending transition is the whole bridge between the two points |
| `FrameScheduler.Scheduler.DrainPendingTransition` | src/core/FrameScheduler.cpp:537-554 | as much of the transition as fits moves to the buffer, in order, the rest stays |
| `FrameScheduler.Scheduler.SkipStale` | src/core/FrameScheduler.cpp:187-196 | never-played front frames with a due successor are skipped, nothing else |
| `FrameScheduler.Scheduler.PlayTurn` | src/core/FrameScheduler.cpp:227-290 | one turn of the point loop does to queue, transition and buffer what the specification of a turn says |
| `FrameScheduler.Scheduler.PlayPoints` | src/core/FrameScheduler.cpp:227-292 | the point loop terminates and computes its specification |
| `FrameScheduler.Scheduler.FillPoints` | src/core/FrameScheduler.cpp:141-292 | the call leaves the specified queue and emits the samples of the specified output |
| `FrameScheduler.Scheduler.FrameStep` | src/core/FrameScheduler.cpp:360-456 | one turn of the frame loop does what the specification of a turn says |
| `FrameScheduler.Scheduler.PlayFrame` | src/core/FrameScheduler.cpp:360-458 | the frame loop terminates and computes its specification |
| `FrameScheduler.Scheduler.FillFrame` | src/core/FrameScheduler.cpp:294-458 | the call leaves the specified queue and returns the specified submission and time stamp |
| `FrameTrace.EveryRunFollowsOnePath` | src/core/FrameScheduler.cpp:141-458 | over every run from an empty queue the content points form one path through the accepted frames, each carries the sample it names, everything else is dark |
| `FrameTrace.StartedFramesAreFinished` | src/core/FrameScheduler.cpp:141-458 | a started frame is never left before its end; order is that of acceptance; only never-played frames are passed over |
| `FrameTrace.RunKeepsPath` | src/core/FrameScheduler.cpp:141-458 | the invariant tying queue and cursor to the last emitted point is kept by every call |
| `FrameTrace.PointTurnTracks` | src/core/FrameScheduler.cpp:227-290 | one turn of the point loop extends the path |
| `FrameTrace.FillPointsLeftover` | src/core/FrameScheduler.cpp:153-291 | leftover transition points are dark and lead to point 0 of a queued front frame |
| `FrameTrace.FillFrameLeftover` | src/core/FrameScheduler.cpp:294-458 | the same after a frame fill |
| `FrameBounds.PointFillBounds` | src/core/FrameScheduler.cpp:153-291 | the minimum is always met; the maximum is exceeded exactly when a drained leftover, an idle queue and the full minimum of blanks collide |
| `FrameBounds.EveryPacedRunFits` | src/core/LaserController.cpp:329-334 | over every point-mode run whose estimates advance by the play time of what was emitted, each fill lies between minimum and maximum, as the caller asserts |
| `FrameBounds.EveryRunPacedByMaximumFits` | src/core/LaserController.cpp:329-334 | so does pacing by the previous maximum, which needs no count of what came back |
| `FrameBounds.PullPointsFits` | src/core/FrameScheduler.cpp:141-292 | one paced request fits and promises that a leftover's frame is started or due by the next one |
| `FrameBounds.UnpacedRequestOverfills` | src/core/FrameScheduler.cpp:206-224 | a concrete unpaced run exceeds its maximum |
| `FrameBounds.FrameFillBounds` | src/core/FrameScheduler.cpp:294-458 | a submission is shorter than twice the maximum and exceeds the maximum exactly when content does not fit behind transition points |
| `FrameBounds.EverySubmissionIsBelowTwiceTheMaximum` | src/core/FrameScheduler.cpp:430-436 | the bound holds after every run of calls |
| `FrameBounds.OneLeftoverPointOverfills` | src/core/FrameScheduler.cpp:430-436 | a run from an empty queue whose fifth call, asked for at most 2 points, returns 3 |
| `FrameBacklog.BacklogIsBounded` | src/core/FrameScheduler.cpp:83-105 | over all interleavings of admissions (in one step, or asked for first with fills in between) and fills, the frames behind the front cost at most budget plus one frame, all at most budget plus two |
| `FrameBacklog.CostCoversPointsAndFrames` | src/core/FrameScheduler.cpp:460-486 | the queued cost covers every waiting point and the floor for every unfinished frame, and is at most both together |
| `FrameBacklog.WaitingIsBounded` | src/core/FrameScheduler.cpp:83-105 | over the same runs no more points wait than budget plus two frames, and no more unfinished frames at the floor each |
| `FrameBacklog.ZeroBudgetQueuesTwo` | src/core/LaserController.cpp:96-125 | with budget 0 at most two frames are ever queued, even when fills come between the readiness test and the enqueue |
| `FrameBacklog.PullConsumes` | src/core/FrameScheduler.cpp:141-458 | a fill keeps a suffix of the queue and touches only its front's cursor |
| `FrameHold.HeldFrameIsNotReplayed` | docs/integration.md:258-269 | once the only frame has been held for the maximum hold time, all content ever emitted is the rest of its current loop |
| `FrameHold.HoldsBeginWhenShown` | src/core/FrameScheduler.cpp:231-234 | over every run, a hold counts from a clock reading of the call that first showed the frame, and no later call changes it |
| `FrameFreshness.EveryRunRepeatsOnlyUnsucceeded` | src/core/FrameScheduler.cpp:256-282 | after every run, a point fill repeats a frame, within the call or as its first content, only while the frame queued behind it is not due at the estimate plus the play time of what the call has emitted by then |
| `FrameFreshness.LoopRepeatsFresh` | src/core/FrameScheduler.cpp:227-290 | the same of the loop, from any queue |
| `FrameSelection.StaleFramesGiveWayToPoints` | src/core/FrameScheduler.cpp:187-224 | after every run, a point fill that finds a never-played front begins with the first point of frame n, where all of frames 1 to n have no time or are due, and frame n + 1 is absent or has a later time; if frame n is not due either, it holds no content |
| `FrameSelection.StaleFramesGiveWayToFrames` | src/core/FrameScheduler.cpp:335-375 | the same of a frame fill, whose submission is that frame up to the maximum; with advanceWhenAvailable the frame need not be due |
| `FrameSelection.OnlyOneIsSelected` | src/core/FrameScheduler.cpp:335-354 | those conditions single out one frame |
| `FrameSelection.PlayedOutSubmission` | src/core/FrameScheduler.cpp:376-419 | after every run, a frame fill that finds its front played to its end: a successor that may be taken is submitted after the dark move to it; otherwise, once the hold is over, the front is dropped for blanks; before that exactly its points 0 to min(size, maximum) - 1 with repeatWhenIdle, and without it nothing, the queue unchanged |
| `FrameSelection.PlayedOutPoints` | src/core/FrameScheduler.cpp:256-290 | the same of a point fill for at least one point, which repeats in every case before the hold is over |
| `FrameSelection.StartedFramesContinue` | src/core/FrameScheduler.cpp:227-256 | a frame started and not finished is continued at its cursor by either fill |
| `FrameSelection.EmptyQueueIsDark` | src/core/FrameScheduler.cpp:175-182 | with nothing queued, a point fill gives as many blanks as its minimum and a frame fill the blanks it names up to its maximum |
| `FrameSelection.SubmissionCarriesItsTime` | src/core/FrameScheduler.cpp:446-449 | a submission that begins with content carries the time of the frame it begins with, any other none |
| `FrameSelection.BridgeInNumbers` | src/core/FrameScheduler.cpp:507-521 | no dark points within a distance of 0.2, otherwise two for every whole 0.05 |
| `LaserPoints.EasingIsSymmetric` | src/core/FrameScheduler.cpp:40-48 | the easing is the same forwards and backwards, starts at rest, and is at 1/16 after a quarter |
| `LsNetCrc.Compute` | src/lightspacenet/LightSpaceNetPacket.cpp:156-174 | the nested loops compute the CRC defined byte by byte |
| `LsNetCrc.BitStepLinear` | src/lightspacenet/LightSpaceNetPacket.cpp:161-171 | a bit step is linear over exclusive or |
| `LsNetCrc.ByteStepSeparates` | src/lightspacenet/LightSpaceNetPacket.cpp:156-174 | from one register, different bytes leave different low bytes |
| `LsNetCrc.CrcDetectsTwoAdjacent` | src/lightspacenet/LightSpaceNetPacket.cpp:156-174 | any change confined to two neighbouring bytes changes the CRC, whatever follows |
| `LsNetCrcRemainder.CrcIsTheRemainder` | src/lightspacenet/LightSpaceNetPacket.cpp:156-174 | for data of two bytes or more: the CRC is the one remainder modulo x^16 + x^12 + x^5 + 1 (0x11021) over GF(2) of the data, its first two bytes inverted, times x^16 |
| `LsNetCrcRemainder.RemainderIsUnique` | src/lightspacenet/LightSpaceNetPacket.cpp:161-171 | a polynomial has one such remainder |
| `LsNetCrcRemainder.CheckValue` | src/lightspacenet/LightSpaceNetPacket.cpp:156-174 | the CRC of the digits 1 to 9 is 0x29B1 |
| `LsNetPacket.BuildPacket` | src/lightspacenet/LightSpaceNetPacket.cpp:211-237 | the bytes appended are header, fields and CRC; nothing when the payload is too long |
| `LsNetCrcRemainder.PacketLayout` | src/lightspacenet/LightSpaceNetPacket.cpp:211-237 | every packet byte for byte in literals: LIGHTSPACE, size, version 1, type, command, payload length, payload, and the remainder of all of it |
| `LsNetPacket.ParseOfBuild` | src/lightspacenet/LightSpaceNetPacket.cpp:211-237 | every built packet parses back to its fields |
| `LsNetPacket.BuildOfParse` | src/lightspacenet/LightSpaceNetPacket.cpp:370-406 | every accepted byte string is the build of its parse |
| `LsNetBursts.CrcDetectsBurst` | src/lightspacenet/LightSpaceNetPacket.cpp:156-174 | any burst of up to 16 bits in three neighbouring bytes changes the CRC, whatever precedes and follows |
| `LsNetBursts.CrcOfCheckedData` | src/lightspacenet/LightSpaceNetPacket.cpp:388-400 | the CRC over data and CRC field is 0 exactly when the field holds the CRC of the data |
| `LsNetBursts.BurstDetected` | src/lightspacenet/LightSpaceNetPacket.cpp:370-406 | an accepted packet hit by one burst of up to 16 bits, anywhere from header to CRC field, is rejected |
| `LsNetBursts.TwoAdjacentBytesDetected` | src/lightspacenet/LightSpaceNetPacket.cpp:370-406 | a change in one byte or two neighbouring bytes, anywhere, is one such burst, and an accepted packet so changed is rejected |
| `LsNetReceiver.TcpReceiver.HandlePacket` | src/lightspacenet/LightSpaceNetController.cpp:666-695 | which packets count as heartbeat replies and which match the awaited acknowledgement |
| `LsNetReceiver.TcpReceiver.DrainBuffer` | src/lightspacenet/LightSpaceNetController.cpp:697-757 | the drain loop terminates and leaves the specified buffer, packets, errors and answer |
| `LsNetReceiver.TcpReceiver.Poll` | src/lightspacenet/LightSpaceNetController.cpp:759-821 | a poll is a sequence of reads and drains; it answers yes exactly when its last packet is the awaited acknowledgement, no earlier packet is one, and it ends early only there, at an empty read or after eight reads |
| `LsNetReceiver.OnlyTheLastAcknowledges` | src/lightspacenet/LightSpaceNetController.cpp:697-757 | a drain stops at the first acknowledgement and nowhere else |
| `LsNetReceiver.DrainComposes` | src/lightspacenet/LightSpaceNetController.cpp:697-757 | draining early and draining again equals one drain of all the bytes |
| `LsNetReceiver.AnySplitIsOneDrain` | src/lightspacenet/LightSpaceNetController.cpp:697-821 | with any splits and any awaited acknowledgements, nothing is lost or duplicated |
| `LsNetReceiver.ChunkIndependence` | src/lightspacenet/LightSpaceNetController.cpp:697-757 | with none awaited, every split gives the same packets, the same number of errors and the same leftover up to dead bytes |
| `LsNetReceiver.Resynchronises` | src/lightspacenet/LightSpaceNetController.cpp:701-748 | header-free garbage before any list of built packets: exactly those packets, no error, empty buffer |
| `LsNetReceiver.ResynchronisesInAnySplit` | src/lightspacenet/LightSpaceNetController.cpp:697-821 | the same for every split into reads |
| `PatternFit.Fit` | src/lightspacenet/LightSpaceNetPacket.cpp:322-368 | the settling loop and the appended move compute the fitted pattern |
| `PatternFit.FittedSize` | src/lightspacenet/LightSpaceNetPacket.cpp:322-368 | the size is the smaller of pattern and limit; a pattern that fits is untouched |
| `PatternFit.FittedShape` | src/lightspacenet/LightSpaceNetPacket.cpp:353-368 | a cut pattern is an unchanged head and then only dark points, starting where the head stops |
| `PatternFit.FittedEndsInPlaceExactly` | src/lightspacenet/LightSpaceNetPacket.cpp:322-368 | it ends at the pattern's last position for every limit but 2 |
| `PatternFit.TwoPointLimitEndsElsewhere` | src/lightspacenet/LightSpaceNetPacket.cpp:322-368 | a pattern of three points cut to two ends away from its last position |
| `PatternFit.TravelCountIsBelowTheCap` | src/lightspacenet/LightSpaceNetPacket.cpp:67-83 | no move wants more than 72 points, so the cap of 128 is never reached |
| `PatternFit.TravelCountSpacesFinely` | src/lightspacenet/LightSpaceNetPacket.cpp:67-83 | the travel count is the least number of points that keeps the average step within 2 % of the width |
| `PatternFit.FittedTailIsTheNinth` | src/lightspacenet/LightSpaceNetPacket.cpp:335-353 | the loop leaves the ninth of the tails wanted one after the other, settled or not |
| `PatternFit.FittedMoveIsFineExactly` | src/lightspacenet/LightSpaceNetPacket.cpp:335-368 | for every pattern: the move keeps the spacing exactly when the wanted tails do not rise from the ninth to the tenth and, if the ninth uses up the limit, the move from the first point fits |
| `PatternFit.FineWhenCuttingBackNeverLengthens` | src/lightspacenet/LightSpaceNetPacket.cpp:335-368 | where cutting further back never needs a longer move: fine exactly when the limit has room for the move from the first point |
| `PatternFit.CoarseMoveNeedsARise` | src/lightspacenet/LightSpaceNetPacket.cpp:340-351 | with that room, a coarse move means that some cut further back needs a longer move |
| `PatternFit.AlternatingTailIsFineExactly` | src/lightspacenet/LightSpaceNetPacket.cpp:340-351 | where two tails want each other, the rounds end on the first of them, and the move is fine exactly when that is the longer |
| `PatternFit.FineDespiteARise` | src/lightspacenet/LightSpaceNetPacket.cpp:340-351 | a pattern with such a rise and a fine move |
| `PatternFit.TailMayNeverSettle` | src/lightspacenet/LightSpaceNetPacket.cpp:340-351 | a pattern whose tail alternates in all eight rounds and ends with a jump |
| `PatternFit.CeilSqrtIsLeast` | src/lightspacenet/LightSpaceNetPacket.cpp:67-83 | the segment count is the least that spans the distance |
| `BoundarySearch.FindBestLoop` | src/core/PointStreamFramer.cpp:237-280 | the loop candidate is the earliest index of maximal score among the blanked points near the anchor |
| `BoundarySearch.RunCut` | src/core/PointStreamFramer.cpp:327-398 | a run yields a cut exactly when it offers one: last of the stretch near home around the closest point, before a real departure, with its score |
| `BoundarySearch.OffersOnce` | src/core/PointStreamFramer.cpp:327-398 | a run offers at most one cut |
| `BoundarySearch.FindTransition` | src/core/PointStreamFramer.cpp:291-405 | the transition candidate is the earliest best offer of all runs in the window that reaches the threshold |
| `BoundarySearch.FindNaturalBoundary` | src/core/PointStreamFramer.cpp:218-441 | the cut is decided between the best loop closure and the best transition |
| `BoundarySearch.BoundaryCutsInTheDark` | src/core/PointStreamFramer.cpp:218-441 | every cut stays in the window and in the dark; without one no loop closure scores 0.3 |
| `BoundarySearch.BoundaryIsUnique` | src/core/PointStreamFramer.cpp:218-441 | the specification admits one cut only |
| `BoundaryPreferences.LoopCutIsCheapest` | src/core/PointStreamFramer.cpp:237-280 | the loop candidate, without scores: among the dark points of the window less than 0.3 from the anchor the earliest of the lowest price, which is 0.6 per 0.3 of distance, 0.3 per nominal size off the nominal size, and 0.1 unless a lit point follows |
| `BoundaryPreferences.ClosurePreferences` | src/core/PointStreamFramer.cpp:252-273 | between two closures: equal distance and status, the one nearer nominal size; equal size and status, the one nearer the anchor; equal distance and size, the one before a lit point |
| `BoundaryPreferences.OffersInNumbers` | src/core/PointStreamFramer.cpp:307-398 | which cut a blank run offers and at what price, in literal distances, lengths and weights |
| `BoundaryPreferences.TransitionIsCheapest` | src/core/PointStreamFramer.cpp:291-405 | the transition candidate is the earliest cheapest offer, at a price of at most 0.45 |
| `BoundaryPreferences.BoundaryRule` | src/core/PointStreamFramer.cpp:407-441 | the decision: an earlier solid closure beats a later transition, an earlier transition wins unless its price is more than 0.15 above, a candidate alone is taken, and without any there is no cut |
| `PointStreamFramer.Framer.ExtractOneFrame` | src/core/PointStreamFramer.cpp:132-181 | frame and rest are the old accumulator; the cut is the natural boundary or, failing that, nominal size; the anchor is the first point left |
| `PointStreamFramer.Framer.EnsurePreparedFrames` | src/core/PointStreamFramer.cpp:76-130 | conservation and bounds are kept; the reserve is reached unless the accumulator runs dry |
| `PointStreamFramer.Framer.TopUp` | src/core/PointStreamFramer.cpp:81-115 | before every cut, with a callback that delivers what it is asked for, the search window is full and transport, prepared and accumulated points together reach the virtual buffer target |
| `PointStreamFramer.Framer.PullCount` | src/core/PointStreamFramer.cpp:88-109 | the least number of points that fills the window and reaches the target |
| `PointStreamFramer.Framer.ExtractFrame` | src/core/PointStreamFramer.cpp:57-74 | all points pulled are the emitted frames, the prepared ones and the accumulator in order; with a respectful callback every frame has 1 to maximum points |
| `PointStreamFramer.Framer.PullPoints` | src/core/PointStreamFramer.cpp:196-216 | nothing is asked for when the count is 0; otherwise what the callback gives is appended and counted |
| `PointStreamFramer.Framer.Reset` | src/core/PointStreamFramer.cpp:183-194 | everything but the frame sizes is forgotten, the anchor and the count of forced cuts included |
| `PostProcessor.Streaming.PostProcess` | src/core/LaserControllerStreaming.cpp:248-313 | the rewritten points and the new state are those of the specification |
| `PostProcessor.Streaming.ApplyStartupBlank` | src/core/LaserControllerStreaming.cpp:232-246 | the first remaining points of the block lose their colour and are counted off |
| `PostProcessor.Streaming.SetArmed` | src/core/LaserControllerStreaming.cpp:422-430 | only a change of state resets the blanking counts and the delay line |
| `PostProcessor.Streaming.ResetShutdownBlank` | src/core/LaserControllerStreaming.cpp:821-834 | the shutdown count is the sync shift plus one millisecond |
| `PostProcessor.Streaming.SetScannerSyncEnabled` | src/core/LaserControllerStreaming.cpp:853-859 | toggling empties the delay line |
| `PostProcessorLaws.SplittingChangesNothing` | src/core/LaserControllerStreaming.cpp:248-313 | one block or two: same output, same state |
| `PostProcessorLaws.BlocksAreOneBlock` | src/core/LaserControllerStreaming.cpp:248-313 | any cutting into blocks: same output, same state |
| `PostProcessorLaws.MillisToPointsIsNearest` | src/core/LaserControllerStreaming.cpp:388-403 | a duration in points is millis times rate / 1000 rounded to nearest, halves upward, between 0 and 2^31 - 1, and nothing else |
| `PostProcessorLaws.ShiftIsNearest` | src/core/LaserControllerStreaming.cpp:289-297 | the shift is max(sync time, 0) times rate / 10000 to the nearest point |
| `PostProcessorLaws.ColourIsDelayedByTheShift` | src/core/LaserControllerStreaming.cpp:279-313 | while armed, with k the sync time in points, rounded to nearest, output colour n is input colour n - k, black before; everything else is untouched |
| `PostProcessorLaws.ArmingStartsDark` | src/core/LaserControllerStreaming.cpp:814-819 | after arming exactly the first N + k outputs are forced dark, N being rate / 1000 and k sync time times rate / 10000, each rounded to nearest |
| `PostProcessorLaws.ArmingByDefault` | src/core/LaserControllerStreaming.cpp:814-819 | at 30000 points per second and a sync time of 2 exactly the first 36 outputs are forced dark, and colour lags by 6 points |
| `PostProcessorLaws.WithoutSyncOnlyStartupBlanks` | src/core/LaserControllerStreaming.cpp:232-246 | without scanner sync only startup blanking changes armed output |
| `PostProcessorLaws.DisarmedOutputIsDark` | src/core/LaserControllerStreaming.cpp:248-313 | after every sequence of calls, disarmed output has no colour |
| `PostProcessorLaws.DisarmingParksTheBeam` | src/core/LaserControllerStreaming.cpp:258-277 | disarmed outputs hold the last armed position for exactly rate / 1000 plus, with sync enabled, sync time times rate / 10000 points, each rounded to nearest, and are 0 after it |
| `BufferEstimator.TargetWithinCapacity` | src/core/BufferEstimator.cpp:50-75 | the target lies between floor and headroom, within the capacity; the floor wins a collision; negative floors and headrooms count as 0 and without capacity there is no target |
| `FrameTransport.Transport.NoteSubmission` | src/core/LaserController.cpp:491-561 | the new snapshot is the submitted count plus the bounded carry-over at the submission's start |
| `FrameTransport.Transport.ProjectedNextWriteRenderTime` | src/core/LaserController.cpp:593-617 | the projection is the later of the drain of the noted backlog and the present plus lead |
| `FrameTransport.ProjectionInNumbers` | src/core/LaserController.cpp:593-617 | the projected start is not before the present plus lead, not before the backlog has played out at its rate up to a microsecond, and if later than the lead not after it |
| `FrameTransport.CarryInNumbers` | src/core/LaserController.cpp:513-561 | a submission that starts before the backlog has played out carries over what is left of it, to the nearest point, up to its limit |
| `FrameTransport.DrainedIsOverplayed` | src/core/BufferEstimator.cpp:21-38 | at or after the projected drain, play-out has caught up to the nearest point |
| `FrameTransport.CarriesNothingExactly` | src/core/LaserController.cpp:513-549 | then the carry-over is 0 exactly when the excess does not wrap |
| `FrameTransport.FreshCarriesNothing` | src/core/LaserController.cpp:513-549 | it is 0 whenever at most 2^31 points could have played since |
| `FrameTransport.StaleEstimateWraps` | src/core/BufferEstimator.cpp:21-38 | a day of silence turns one point into 1702967297 |
| `FrameTransport.SlotsNeverOverlap` | src/core/LaserController.cpp:593-617 | over every run from an empty transport, each projected start waits for everything noted with the submission before |
| `FrameTransport.EverySubmissionCountsOnce` | src/core/LaserController.cpp:513-549 | over every run from an empty transport without stale estimates, each snapshot is exactly the submitted count |
| `EtherDream.Controller.UpdatePlaybackRequirements` | src/EtherDream/EtherDreamController.cpp:954-1004 | next action and rate-recovery latches for every status |
| `EtherDream.Controller.ApplyFreshConnectionStatus` | src/EtherDream/EtherDreamController.cpp:1006-1037 | first action on a new connection |
| `EtherDream.Controller.HandleResponse` | src/EtherDream/EtherDreamController.cpp:388-543 | what each kind of response does to the pending action, and how the command ends |
| `EtherDream.Controller.SendCommand` | src/EtherDream/EtherDreamController.cpp:1165-1232 | what the senders add once a response was accepted |
| `EtherDream.Controller.RunTurn` | src/EtherDream/EtherDreamController.cpp:259-304 | one turn of the loop against a device is the specified turn |
| `EtherDream.FillRequest` | src/EtherDream/EtherDreamController.cpp:1039-1075 | least and most fit the usable free space |
| `EtherDream.UsableFreeSpace` | src/EtherDream/EtherDreamController.cpp:1638-1650 | using all of it leaves the write headroom free |
| `EtherDreamProgress.TurnDecreasesRank` | src/EtherDream/EtherDreamController.cpp:259-304 | until playback runs, every turn keeps the state coherent and decreases the rank |
| `EtherDreamProgress.FreshConnectionIsCoherent` | src/EtherDream/EtherDreamController.cpp:1006-1037 | the handshake leads to a coherent state whatever the device was doing |
| `EtherDreamProgress.RefusalLeavesCoherent` | src/EtherDream/EtherDreamController.cpp:416-525 | so does every refusal; a refused data packet schedules a clear |
| `EtherDreamProgress.PlaybackStarts` | src/EtherDream/EtherDreamController.cpp:259-304 | playback starts within as many turns as the rank |
| `EtherDreamProgress.IdleDeviceStartsExactlyWhenLargeEnough` | src/EtherDream/EtherDreamController.cpp:1621-1650 | an idle device is brought to playing if and only if its buffer exceeds 256 points |
| `EtherDream.EstimatedFullness` | src/EtherDream/EtherDreamController.cpp:1599-1619 | the report itself unless playback runs |
| `EtherDreamProgress.EstimateIsAtMostOneLow` | src/EtherDream/EtherDreamController.cpp:1599-1619 | the estimate is below what a device playing at the host's rate can still hold by at most one point, and by one exactly when more than half of the next point has played |
| `EtherDreamProgress.PacketLeavesOneFree` | src/EtherDream/EtherDreamController.cpp:1638-1650 | a device that holds no more than estimated keeps one point free and accepts |
| `EtherDreamProgress.DataPacketsFit` | src/EtherDream/EtherDreamController.cpp:1039-1075 | however much has played since the report, a data packet never exceeds the free space the device has; it leaves one point and is accepted unless the estimate was rounded down |
| `EtherDreamProgress.OnePointStaysFreeExactly` | src/EtherDream/EtherDreamController.cpp:1638-1650 | when every packet that may be asked for leaves a point free |
| `EtherDreamProgress.RoundedPacketIsRefused` | src/EtherDream/EtherDreamController.cpp:1638-1650 | a playing device that still holds 500 of 1000 points is taken to hold 499 and refuses the 500 it is sent |
| `EtherDreamProgress.PlayingIsRefilledExactly` | src/EtherDream/EtherDreamController.cpp:1077-1093 | while playing, data is sent exactly when the buffer is below the underrun threshold with room, or 150 points are missing; a packet makes up for all that is missing, up to 3640 points |
| `EtherDreamProgress.TargetFollowsLatency` | src/EtherDream/EtherDreamController.cpp:1621-1628 | the target is the latency in points to the nearest, wherever 256 points and a headroom of 512 leave room for it |
| `EtherDreamProgress.ImplausibleRateIsClearedThenStopped` | src/EtherDream/EtherDreamController.cpp:971-1004 | a device that keeps reporting an implausible rate is cleared once and stopped from then on, and one plausible report forgets it |
| `EtherDreamProgress.RateChangeRestarts` | src/EtherDream/EtherDreamController.cpp:259-275 | after a begin, the next turn restarts exactly when the host rate is another than the one begun with |
| `EtherDreamProgress.RunUntilPlaying` | src/EtherDream/EtherDreamController.cpp:259-304 | the loop itself reaches playback within the rank |
| `HeliosLabels.MakeWithSuffix` | src/helios/HeliosManager.cpp:147-175 | the numbered label, at most 30 characters |
| `HeliosLabels.ShortNamesAreKept` | src/helios/HeliosManager.cpp:147-175 | a name of up to 30 characters is kept, and numbered where the number fits |
| `HeliosLabels.LongNamesAreCut` | src/helios/HeliosManager.cpp:156-171 | a longer one is cut so that the label has 30 characters, less the spaces the cut leaves before the number |
| `HeliosLabels.CandidatesDiffer` | src/helios/HeliosManager.cpp:147-175 | different numbers give different labels, however the base is shortened |
| `HeliosLabels.MakeUniqueRenameLabel` | src/helios/HeliosManager.cpp:177-199 | the unbounded loop ends with the first candidate that is free and differs from the current label |
| `HeliosLabels.SanitizeIdComponent` | src/helios/HeliosManager.cpp:201-236 | lower-case letters, digits and single inner dashes |
| `HeliosLabels.CleanIsAFixedPoint` | src/helios/HeliosManager.cpp:201-236 | the clean strings are exactly those sanitizing leaves alone |
| `HeliosLabels.SanitizingTwiceIsSanitizingOnce` | src/helios/HeliosManager.cpp:201-236 | sanitizing is idempotent |
| `HeliosLabels.MakeControllerId` | src/helios/HeliosManager.cpp:238-256 | the unbounded loop ends with the first candidate not in use |
| `HeliosFrame.Connection.WriteFrame` | src/helios/HeliosController.cpp:342-412 | the error, or the buffer with the transfer of the accepted plan |
| `HeliosFrame.Choose` | src/helios/HeliosController.cpp:360-404 | the step-by-step arithmetic gives the specified verdict |
| `HeliosFrame.Repeated` | src/helios/HeliosController.cpp:370-376 | every point stands in the copy `repeat` times in a row |
| `HeliosFrame.Packed` | src/helios/HeliosController.cpp:406-428 | the indexed writes fill the buffer with the transfer |
| `HeliosFrame.RepeatIsLeast` | src/helios/HeliosController.cpp:365 | the duplication factor is the least that takes the rate past the minimum |
| `HeliosFrame.StrideIsLeast` | src/helios/HeliosController.cpp:383-388 | the sampling factor is the least that brings rate and count under their limits |
| `HeliosFrame.AcceptedWithinLimits` | src/helios/HeliosController.cpp:357-404 | every accepted frame keeps the point limit and the maximum rate |
| `HeliosFrame.MinimumRateKeptExactly` | src/helios/HeliosController.cpp:396-404 | no frame is sent below the minimum rate if and only if that rate is at most 22 |
| `HeliosFrame.TooManyPointsExactly` | src/helios/HeliosController.cpp:384-394 | refused exactly when the frame, repeated as its rate needs, breaks a limit and no sampling factor meets all three |
| `HeliosFrame.ZeroPointFrameExactly` | src/helios/HeliosController.cpp:384-394 | exactly when an accepted frame, slow or fast, is sent with no points |
| `HeliosFrame.ZeroPointFrameOccurs` | src/helios/HeliosController.cpp:384-394 | one point at twice the maximum rate is such a frame |
| `HeliosFrame.RepeatedInARow` | src/helios/HeliosController.cpp:370-376 | a frame that is duplicated but not sampled shows each source point `repeat` times in a row |
| `HeliosFrame.SourcesInOrder` | src/helios/HeliosController.cpp:409-421 | only points of the frame are read, in order, and without duplication none twice |
| `HeliosFrame.RepetitionKeepsDuration` | src/helios/HeliosController.cpp:360-381 | duplication keeps points over rate exactly, up to the one-point trim |
| `HeliosFrame.TransferDecodes` | src/helios/HeliosController.cpp:406-428 | 7·m+5 bytes that read back as the truncated points, rate, count and flags |
| `IdnIdentity.MatchDiscoveredService` | src/idn/IdnManager.cpp:175-208 | the preferred service if unclaimed, else the first unclaimed one |
| `IdnIdentity.Manager.Discover` | src/idn/IdnManager.cpp:288-446 | results and pruned cache of a pass are those of the specification |
| `IdnIdentity.AnnouncedIsSound` | src/idn/IdnManager.cpp:46-49 | identifiers made from a unit's 16 bytes and a service number never look like a fallback identifier |
| `IdnIdentity.EveryPassGivesDistinctIds` | src/idn/IdnManager.cpp:288-446 | every pass of every run gives pairwise distinct identifiers |
| `IdnIdentity.RepeatingAPassKeepsEveryId` | src/idn/IdnManager.cpp:288-446 | repeating a pass with the same slots and services changes no identifier |
| `AckRing.Ring.Restart` | src/lasercubenet/LaserCubeNetController.cpp:70-71 | every slot is free and nothing is pending |
| `AckRing.Ring.Send` | src/lasercubenet/LaserCubeNetController.cpp:320-333 | a sent packet occupies its slot; the count stays exact |
| `AckRing.Ring.ReceiveAcks` | src/lasercubenet/LaserCubeNetController.cpp:393-482 | acknowledged slots are freed, unmatched acknowledgements counted as lost; the count stays exact |
| `AckRing.AckedSlotsAreFree` | src/lasercubenet/LaserCubeNetController.cpp:393-482 | a slot is freed exactly by a four-byte acknowledgement from the device that names it |
| `AckRing.AcksFreeOrAreLost` | src/lasercubenet/LaserCubeNetController.cpp:446-482 | every acknowledgement frees a slot or is counted as lost |
| `AckRing.Ring.CheckAcks` | src/lasercubenet/LaserCubeNetController.cpp:393-542 | no pending slot is older than a second afterwards; the connection is given up exactly when all 256 slots are pending and the oldest for half a second |
| `AckRing.OccupiedExtremes` | src/lasercubenet/LaserCubeNetController.cpp:484-532 | the count is 0 exactly when every slot is free and 256 exactly when none is |

## Left out

- IEEE arithmetic: coordinates, colours and scores are real numbers; non-finite values and rounding are
  not modelled. Distances in the boundary search are an arbitrary function; in the scheduler and in
  `PatternFit` they are compared through squares and whole parts of square roots.
- Lock contention enters as the outcome of an attempt; which thread holds a lock is not modelled.
- Frames held by several owners, and frames that callers hand over with a cursor or play count of their
  own; the queue's frames are values with a cursor of zero on arrival.
- `fillPoints` appending to a buffer that is not empty: the caller clears it.
- Clock readings are a function of their number in a call; a hold that starts at clock value 0 is not
  told apart from a default time point.
- Width of counters: points, budgets and the shutdown count are unbounded, and 64-bit products do not
  overflow. The conversions to 32 bits in buffer estimation and submission projection are modelled.
- HeliosFrame.Connection.WriteFrame: the product of point count and duplication factor is required to
  fit 32 bits; beyond four thousand million repeated points the source wraps. The vendor's limits are
  a parameter, since their header is not part of this model. The shutter command, the USB transfer
  and its errors are left out.
- HeliosLabels.MakeUniqueRenameLabel: fewer than 2^31 - 4 labels are taken to be in use, beyond which the
  source's int suffix overflows.
- HeliosLabels.MakeControllerId: the suffix is unbounded, while the source's int overflows beyond 2^31
  identifiers.
- PointStreamFramer.Framer.PullPoints: the source sanitizes each batch, which changes non-finite values
  only; real numbers have none, so nothing is left to change.
- FrameTransport.Transport.NoteSubmission: publishing the estimated capacity is left out.
- FrameBacklog.BacklogIsBounded: the budget and the cost floor are fixed for the run; how
  `queuedPointBudget` derives them from latency and nominal size is not modelled.
- EtherDream.Controller.RunTurn: the device answers every command; network failures, pings for their own
  sake, underrun events, recovery blanking of a packet, rate-change bits and the sleep between turns are
  left out, and consumption while playing enters only through the estimate.
- AckRing.Ring.CheckAcks: buffer fullness, latency samples and warnings are left out, and so are
  datagrams from other senders except that they acknowledge nothing.
- LsNetReceiver.TcpReceiver.Poll: socket errors and time-outs appear only as an empty read.
- IdnIdentity.Manager.Discover: the scan for services, status queries and the controller list are left out.
- Content-source switching between frames and points, the latency percentile cache, stream-health
  counters, error events and logging: easy members.
- Sockets, USB, threads, managers, plugins and the other controllers.
