/** How many points one fill emits.

Callers of fillPoints assert that the output lies between the minimum and the maximum of the request
(src/core/LaserController.cpp:329-332); fillFrame is asked for at most its maximum. Neither holds of
every call, and the lemmas say exactly when. */
module FrameBounds {
  import opened Arithmetic
  import opened FrameScheduler
  import opened FrameTrace
  import opened LaserPoints
  import opened Options

  // ----- fillPoints -----

  lemma PointTurnBounds(queue: seq<Frame>, out: seq<Emit>, k: nat, call: PointCall)
    requires WellFormed(queue) && queue != [] && |out| < call.maximum && call.minimum <= call.maximum
    requires PointTurn(queue, out, k, call).Done?
    ensures call.minimum <= |PointTurn(queue, out, k, call).result.out| <= call.maximum
  {
    hide Bridge, Due, PlayTime, Chunk;
  }

  lemma {:induction false} PointLoopBounds(queue: seq<Frame>, out: seq<Emit>, k: nat, call: PointCall)
    requires WellFormed(queue) && queue != [] && |out| < call.maximum && call.minimum <= call.maximum
    ensures call.minimum <= |PointLoop(queue, out, k, call).out| <= call.maximum
    decreases call.maximum - |out|, Exhausted(queue)
  {
    hide PointTurn, WellFormed;
    var turn := PointTurn(queue, out, k, call);
    if turn.Done? {
      PointTurnBounds(queue, out, k, call);
    } else {
      PointTurnGoesOn(queue, out, k, call);
      PointLoopBounds(turn.queue, turn.out, k + 1, call);
    }
  }

  /** Nothing to show: the queue is empty, or its first frame that is not stale was never played and
      is not due. */
  ghost predicate Idle(queue: seq<Frame>, estimate: Time)
  {
    queue == [] ||
    var live := DropStale(queue, estimate);
    live[0].playCount == 0 && !Due(live[0], estimate)
  }

  /** The minimum is always met. The maximum is exceeded exactly when transition points of an
      earlier call are drained, leave room, the queue is idle, and the full minimum of blanks that is
      then appended does not fit behind them. */
  lemma PointFillBounds(queue: seq<Frame>, transition: seq<LaserPoint>, call: PointCall)
    requires WellFormed(queue) && 0 < call.maximum && call.minimum <= call.maximum
    ensures |FillPointsQueue(queue, transition, call).out| >= call.minimum
    ensures |FillPointsQueue(queue, transition, call).out| > call.maximum <==>
            && |transition| < call.maximum
            && Idle(queue, call.estimate)
            && |transition| + call.minimum > call.maximum
  {
    hide PointLoop, DropStale, Due;
    if queue != [] && |transition| < call.maximum {
      var live := DropStale(queue, call.estimate);
      WellFormedSuffix(queue, |queue| - |live|);
      PointLoopBounds(live, Transitions(transition[..|transition|]), 0, call);
    }
  }

  // ----- leftovers are played in time -----

  /** Leftover transition points lead to a front frame that has been started or is due by `horizon`. */
  ghost predicate Promised(queue: seq<Frame>, transition: seq<LaserPoint>, horizon: Time)
  {
    transition != [] ==>
      queue != [] && (queue[0].playCount > 0 || Due(queue[0], horizon))
  }

  lemma PlayTimeGrows(a: nat, b: nat, rate: nat)
    requires a <= b
    ensures PlayTime(a, rate) <= PlayTime(b, rate)
  {
    if rate > 0 {
      QuotientGrows(a * 1_000_000_000, b * 1_000_000_000, rate);
    }
  }

  lemma QuotientGrows(x: nat, y: nat, d: nat)
    requires x <= y && d > 0
    ensures x / d <= y / d
  {
    var q, r := x / d, y / d;
    assert x == d * q + x % d && y == d * r + y % d;
    assert q > r ==> d * q >= d * (r + 1);
  }

  lemma PointTurnPromises(queue: seq<Frame>, out: seq<Emit>, k: nat, call: PointCall)
    requires WellFormed(queue) && queue != [] && |out| < call.maximum
    requires PointTurn(queue, out, k, call).Done?
    ensures var f := PointTurn(queue, out, k, call).result;
            Promised(f.queue, f.transition, call.estimate + PlayTime(|f.out|, call.rate))
  {
    hide Bridge, PlayTime, Chunk;
    var front := Started(queue[0], call.clock(2 * k + 1));
    var toAdd := Min(|front.points| - front.nextPoint, call.maximum - |out|);
    PlayTimeGrows(|out| + toAdd, |PointTurn(queue, out, k, call).result.out|, call.rate);
  }

  lemma {:induction false} PointLoopPromises(queue: seq<Frame>, out: seq<Emit>, k: nat, call: PointCall)
    requires WellFormed(queue) && queue != [] && |out| < call.maximum
    ensures var f := PointLoop(queue, out, k, call);
            Promised(f.queue, f.transition, call.estimate + PlayTime(|f.out|, call.rate))
    decreases call.maximum - |out|, Exhausted(queue)
  {
    hide PointTurn, WellFormed, Promised, PlayTime;
    var turn := PointTurn(queue, out, k, call);
    if turn.Done? {
      PointTurnPromises(queue, out, k, call);
    } else {
      PointTurnGoesOn(queue, out, k, call);
      PointLoopPromises(turn.queue, turn.out, k + 1, call);
    }
  }

  lemma FillPointsPromises(queue: seq<Frame>, transition: seq<LaserPoint>, call: PointCall, horizon: Time)
    requires WellFormed(queue) && 0 < call.maximum
    requires Promised(queue, transition, horizon) && horizon <= call.estimate
    ensures var f := FillPointsQueue(queue, transition, call);
            Promised(f.queue, f.transition, call.estimate + PlayTime(|f.out|, call.rate))
  {
    hide PointLoop, DropStale, PlayTime;
    var n := Min(call.maximum, |transition|);
    if queue != [] && n < call.maximum {
      var live := DropStale(queue, call.estimate);
      WellFormedSuffix(queue, |queue| - |live|);
      PointLoopPromises(live, Transitions(transition[..n]), 0, call);
    }
  }

  lemma {:induction false} StaleFrontIsReplacedByADueOne(queue: seq<Frame>, estimate: Time)
    requires queue != [] && (queue[0].playCount > 0 || Due(queue[0], estimate))
    ensures var live := DropStale(queue, estimate);
            live[0].playCount > 0 || Due(live[0], estimate)
    decreases |queue|
  {
    if |queue| > 1 && queue[0].playCount == 0 && Due(queue[1], estimate) {
      StaleFrontIsReplacedByADueOne(queue[1..], estimate);
    }
  }

  // ----- point-mode runs -----

  /** Point requests whose minimum fits their maximum, and whose render estimates leave room for
      what the request before emitted. `horizon` is that earliest estimate. */
  ghost predicate Paced(s: Sched, horizon: Option<Time>, ops: seq<Op>)
    requires WellFormed(s.All())
    decreases |ops|
  {
    ops == [] ||
    var r := After(s, ops[0]);
    match ops[0]
    case PullFrame(_, _, _) => false
    case PullPoints(request, rate, hold, clock) =>
      var estimate := Estimate(request.renderTime, clock);
      && request.minimum <= request.maximum
      && (horizon.Some? ==> horizon.value <= estimate)
      && Paced(r.0, Some(estimate + PlayTime(|r.1|, rate)), ops[1..])
    case _ => Paced(r.0, horizon, ops[1..])
  }

  /** Every point request of the run was answered with between its minimum and its maximum. */
  ghost predicate EveryFillFits(s: Sched, ops: seq<Op>)
    requires WellFormed(s.All())
    decreases |ops|
  {
    ops == [] ||
    var r := After(s, ops[0]);
    && (ops[0].PullPoints? ==>
          ops[0].pointRequest.minimum <= |r.1| <= ops[0].pointRequest.maximum)
    && EveryFillFits(r.0, ops[1..])
  }

  ghost predicate PromisedBy(s: Sched, horizon: Option<Time>)
  {
    match horizon
    case None => s.pendingTransition == []
    case Some(t) => Promised(s.frameQueue, s.pendingTransition, t)
  }

  lemma PullPointsFits(s: Sched, horizon: Option<Time>, op: Op)
    requires WellFormed(s.All()) && PromisedBy(s, horizon) && op.PullPoints?
    requires op.pointRequest.minimum <= op.pointRequest.maximum
    requires horizon.Some? ==> horizon.value <= Estimate(op.pointRequest.renderTime, op.clock)
    ensures var r := After(s, op);
            && op.pointRequest.minimum <= |r.1| <= op.pointRequest.maximum
            && PromisedBy(r.0, Some(Estimate(op.pointRequest.renderTime, op.clock)
                                    + PlayTime(|r.1|, op.rate)))
  {
    hide FillPointsQueue, DropStale, PlayTime, Due;
    var request := op.pointRequest;
    var estimate := Estimate(request.renderTime, op.clock);
    var call := PointCall(request.minimum, request.maximum, estimate, op.rate, op.hold, op.clock);
    var earlier := if horizon.Some? then horizon.value else estimate;
    assert Promised(s.All(), s.pendingTransition, earlier);
    assert Promised(s.All(), s.pendingTransition, estimate) by { DueLater(s.All(), earlier, estimate); }
    if request.maximum > 0 {
      if s.pendingTransition != [] {
        StaleFrontIsReplacedByADueOne(s.All(), estimate);
      }
      PointFillBounds(s.All(), s.pendingTransition, call);
      FillPointsPromises(s.All(), s.pendingTransition, call, estimate);
    } else {
      DueLater(s.All(), estimate, estimate + PlayTime(0, op.rate));
    }
  }

  lemma DueLater(queue: seq<Frame>, early: Time, late: Time)
    requires early <= late
    ensures queue != [] && Due(queue[0], early) ==> Due(queue[0], late)
  {
  }

  lemma {:induction false} PacedRunFits(s: Sched, horizon: Option<Time>, ops: seq<Op>)
    requires WellFormed(s.All()) && PromisedBy(s, horizon) && Paced(s, horizon, ops)
    ensures EveryFillFits(s, ops)
    decreases |ops|
  {
    hide WellFormed, PlayTime, Due, PulledPoints, QueueCost;
    if ops != [] {
      var r := After(s, ops[0]);
      match ops[0] {
        case PullPoints(request, rate, hold, clock) =>
          PullPointsFits(s, horizon, ops[0]);
          PacedRunFits(r.0, Some(Estimate(request.renderTime, clock) + PlayTime(|r.1|, rate)), ops[1..]);
        case AskReady(_, _) => PacedRunFits(r.0, horizon, ops[1..]);
        case Submit(_, _) => PacedRunFits(r.0, horizon, ops[1..]);
        case TrySubmit(_, _, _, _) => PacedRunFits(r.0, horizon, ops[1..]);
      }
    }
  }

  /** The contract its caller asserts: over every paced point-mode run from an empty queue, each
      fill terminates with between its minimum and its maximum of points. */
  lemma EveryPacedRunFits(ops: seq<Op>)
    requires Paced(EMPTY, None, ops)
    ensures EveryFillFits(EMPTY, ops)
  {
    PacedRunFits(EMPTY, None, ops);
  }

  /** Pacing that a caller can keep without counting what came back: every estimate leaves room for
      the whole maximum of the request before. */
  ghost predicate PacedByMaximum(horizon: Option<Time>, ops: seq<Op>)
    decreases |ops|
  {
    ops == [] ||
    match ops[0]
    case PullFrame(_, _, _) => false
    case PullPoints(request, rate, hold, clock) =>
      var estimate := Estimate(request.renderTime, clock);
      && request.minimum <= request.maximum
      && (horizon.Some? ==> horizon.value <= estimate)
      && PacedByMaximum(Some(estimate + PlayTime(request.maximum, rate)), ops[1..])
    case _ => PacedByMaximum(horizon, ops[1..])
  }

  lemma {:induction false} PacedByMaximumIsPaced(s: Sched, horizon: Option<Time>, later: Option<Time>, ops: seq<Op>)
    requires WellFormed(s.All()) && PromisedBy(s, horizon) && PacedByMaximum(later, ops)
    requires horizon.Some? ==> later.Some? && horizon.value <= later.value
    ensures Paced(s, horizon, ops)
    decreases |ops|
  {
    hide WellFormed, PlayTime, Due, PulledPoints, QueueCost, Promised;
    if ops != [] {
      var r := After(s, ops[0]);
      match ops[0] {
        case PullPoints(request, rate, hold, clock) =>
          var estimate := Estimate(request.renderTime, clock);
          PullPointsFits(s, horizon, ops[0]);
          PlayTimeGrows(|r.1|, request.maximum, rate);
          PacedByMaximumIsPaced(r.0, Some(estimate + PlayTime(|r.1|, rate)),
                                Some(estimate + PlayTime(request.maximum, rate)), ops[1..]);
        case AskReady(_, _) => PacedByMaximumIsPaced(r.0, horizon, later, ops[1..]);
        case Submit(_, _) =>
          SubmittingKeepsThePromise(s, horizon, ops[0]);
          PacedByMaximumIsPaced(r.0, horizon, later, ops[1..]);
        case TrySubmit(_, _, _, _) =>
          SubmittingKeepsThePromise(s, horizon, ops[0]);
          PacedByMaximumIsPaced(r.0, horizon, later, ops[1..]);
      }
    }
  }

  lemma SubmittingKeepsThePromise(s: Sched, horizon: Option<Time>, op: Op)
    requires WellFormed(s.All()) && PromisedBy(s, horizon) && (op.Submit? || op.TrySubmit?)
    ensures PromisedBy(After(s, op).0, horizon)
  {
    hide Due, QueueCost;
  }

  /** So does pacing by the maxima suffice. */
  lemma EveryRunPacedByMaximumFits(ops: seq<Op>)
    requires PacedByMaximum(None, ops)
    ensures WellFormed(EMPTY.All()) && EveryFillFits(EMPTY, ops)
  {
    PacedByMaximumIsPaced(EMPTY, None, None, ops);
    EveryPacedRunFits(ops);
  }

  // ----- why the pacing is needed -----

  const HERE := BLANK_POINT
  const THERE := BLANK_POINT.(x := 1.0)

  /** Two frames far apart, the second due at 100 ns. */
  function TwoFrames(): (s: Sched)
    ensures WellFormed(s.All())
  {
    Enqueue(Enqueue(EMPTY, [HERE], 0), [THERE], 100)
  }

  /** A request at 1 ns that plays the first frame, moves on, and is full in mid-transition. */
  const FIRST := PointRequest(2, 3, 1)

  lemma FirstRequestSpills(clock: Clock)
    ensures var r := PulledPoints(TwoFrames(), FIRST, 10_000_000, 0, clock);
            && r.0.All() == [Frame(1, [THERE], 100, 0, 0, 0)]
            && r.0.pendingTransition == Bridge(HERE, THERE)[2..]
            && |r.0.pendingTransition| >= 2
  {
    BridgeIsLong();
    hide Bridge, HERE, THERE, FillPointsQueue;
    var a, b := Frame(0, [HERE], 0, 0, 0, 0), Frame(1, [THERE], 100, 0, 0, 0);
    assert TwoFrames().All() == [a, b];
    FirstFillSpills(a, b, PointCall(2, 3, 1, 10_000_000, 0, clock));
  }

  /** A frame of one point, then the first two points of a long bridge to the next frame, which falls
      due as the first point has played. */
  lemma FirstFillSpills(a: Frame, b: Frame, call: PointCall)
    requires WellFormed([a, b]) && |a.points| == 1 && a.nextPoint == 0 && a.playCount == 0 && a.time == 0
    requires b.points != [] && b.time == 100 && call == PointCall(2, 3, 1, 10_000_000, 0, call.clock)
    requires |Bridge(Last(a.points), b.points[0])| >= 4
    ensures var f := FillPointsQueue([a, b], [], call);
            f.queue == [b] && f.transition == Bridge(Last(a.points), b.points[0])[2..]
  {
    hide PointTurn, Bridge;
    assert DropStale([a, b], 1) == [a, b];
    assert Transitions([]) == [];
    FirstTurnSpills(a, b, call);
    assert PointLoop([a, b], [], 0, call) == PointTurn([a, b], [], 0, call).result;
  }

  lemma FirstTurnSpills(a: Frame, b: Frame, call: PointCall)
    requires WellFormed([a, b]) && |a.points| == 1 && a.nextPoint == 0 && a.playCount == 0 && a.time == 0
    requires b.points != [] && b.time == 100 && call == PointCall(2, 3, 1, 10_000_000, 0, call.clock)
    requires |Bridge(Last(a.points), b.points[0])| >= 4
    ensures var t := PointTurn([a, b], [], 0, call);
            t.Done? && t.result.queue == [b] && t.result.transition == Bridge(Last(a.points), b.points[0])[2..]
  {
    hide Bridge, Chunk;
    assert [a, b][1..] == [b];
    assert PlayTime(1, 10_000_000) == 100;
    var bridge := Bridge(Last(a.points), b.points[0]);
    var out1 := [] + Chunk(Started(a, call.clock(1)), 1);
    assert PointTurn([a, b], [], 0, call) == Cross([b], out1, 3, bridge);
  }

  lemma BridgeIsLong()
    ensures |Bridge(HERE, THERE)| >= 4
  {
    assert SquaredDistance(HERE, THERE) == 1.0;
  }

  /** The same request repeated with an estimate of 2 ns, earlier than what was just filled, finds
      the front frame not due and exceeds its maximum. */
  lemma UnpacedRequestOverfills(clock: Clock)
    ensures var s := PulledPoints(TwoFrames(), FIRST, 10_000_000, 0, clock).0;
            var room := |s.pendingTransition| + 1;
            |PulledPoints(s, PointRequest(room, room, 2), 10_000_000, 0, clock).1| > room
  {
    FirstRequestSpills(clock);
    hide FIRST, TwoFrames, HERE, THERE, PulledPoints, Bridge;
    var s := PulledPoints(TwoFrames(), FIRST, 10_000_000, 0, clock).0;
    UndueFrontOverfills(s, clock);
  }

  lemma UndueFrontOverfills(s: Sched, clock: Clock)
    requires WellFormed(s.All()) && |s.All()| == 1 && s.All()[0].time == 100 && s.All()[0].playCount == 0
    requires s.pendingTransition != []
    ensures var room := |s.pendingTransition| + 1;
            |PulledPoints(s, PointRequest(room, room, 2), 10_000_000, 0, clock).1| > room
  {
    var room := |s.pendingTransition| + 1;
    UndueFrontIsIdle(s.All());
    PulledIsFilled(s, PointRequest(room, room, 2), 10_000_000, 0, clock);
    hide FillPointsQueue, PulledPoints, Idle;
    PointFillBounds(s.All(), s.pendingTransition, PointCall(room, room, 2, 10_000_000, 0, clock));
  }

  lemma PulledIsFilled(s: Sched, request: PointRequest, rate: nat, hold: Time, clock: Clock)
    requires WellFormed(s.All()) && request.maximum > 0
    ensures var call := PointCall(request.minimum, request.maximum,
                                  Estimate(request.renderTime, clock), rate, hold, clock);
            PulledPoints(s, request, rate, hold, clock).1
              == FillPointsQueue(s.All(), s.pendingTransition, call).out
  {
    hide FillPointsQueue;
  }

  lemma UndueFrontIsIdle(queue: seq<Frame>)
    requires |queue| == 1 && queue[0].time == 100 && queue[0].playCount == 0
    ensures Idle(queue, 2)
  {
  }

  // ----- fillFrame -----

  ghost predicate FrontIsClean(queue: seq<Frame>)
  {
    queue != [] && queue[0].playCount == 0 ==> queue[0].nextPoint == 0
  }

  /** Content joins transition points already in the submission and does not fit behind them: either
      a leftover transition leads into the front frame, or the front frame is finished and a
      transition to its successor is generated within this call. */
  ghost predicate Overfills(queue: seq<Frame>, transition: seq<LaserPoint>, call: FrameCall)
    requires WellFormed(queue)
  {
    queue != [] &&
    var live := DropStale(queue, call.estimate);
    WellFormedSuffix(queue, |queue| - |live|);
    OverfillsFrom(live, |transition|, call)
  }

  ghost predicate OverfillsFrom(live: seq<Frame>, leftover: nat, call: FrameCall)
    requires WellFormed(live) && live != []
  {
    if !Exhausted(live) then
      && 0 < leftover < call.maximum
      && (live[0].playCount > 0 || call.advance || Due(live[0], call.estimate))
      && leftover + (|live[0].points| - live[0].nextPoint) > call.maximum
    else
      && |live| > 1
      && (call.advance || Due(live[1], call.estimate))
      && var bridge := |Bridge(Last(live[0].points), live[1].points[0])|;
         0 < bridge < call.maximum && bridge + |live[1].points| > call.maximum
  }

  lemma {:induction false} DropStaleKeepsClean(queue: seq<Frame>, estimate: Time)
    requires WellFormed(queue) && FrontIsClean(queue)
    ensures FrontIsClean(DropStale(queue, estimate))
    ensures queue != [] && queue[0].nextPoint == 0 ==> DropStale(queue, estimate)[0].nextPoint == 0
    decreases |queue|
  {
    if |queue| > 1 && queue[0].playCount == 0 && Due(queue[1], estimate) {
      WellFormedSuffix(queue, 1);
      DropStaleKeepsClean(queue[1..], estimate);
    }
  }

  /** A turn on a front frame that still has points to play ends the call. */
  lemma UnexhaustedTurn(queue: seq<Frame>, out: seq<Emit>, call: FrameCall)
    requires WellFormed(queue) && queue != [] && !Exhausted(queue) && FrontIsClean(queue)
    requires |out| < call.maximum
    ensures var shown := queue[0].playCount > 0 || call.advance || Due(queue[0], call.estimate);
            var t := FrameLoopTurn(queue, out, call);
            && t.Finish?
            && |t.result.filled.out| ==
               if shown then |out| + Min(|queue[0].points| - queue[0].nextPoint, call.maximum)
               else Min(call.blankCount, call.maximum)
  {
    hide Due;
  }

  lemma ExhaustedTurn(queue: seq<Frame>, call: FrameCall)
    requires WellFormed(queue) && Exhausted(queue) && FrontIsClean(queue) && 0 < call.maximum
    ensures var f := FrameLoop(queue, [], call).filled.out;
            && |f| < 2 * call.maximum
            && (|f| > call.maximum <==> OverfillsFrom(queue, 0, call))
  {
    hide Bridge, Due, FrameLoop;
    assert queue[0].playCount > 0;
    UnfoldFrameLoop(queue, [], call);
    var t := FrameLoopTurn(queue, [], call);
    if t.Continue? {
      UnfoldFrameLoop(t.queue, t.out, call);
      if |queue| > 1 && (call.advance || Due(queue[1], call.estimate)) {
        var bridge := Bridge(Last(queue[0].points), queue[1].points[0]);
        assert t.queue == queue[1..] && |t.out| == |bridge|;
      } else {
        assert t.queue[0].playCount > 0 && t.out == [];
      }
      UnexhaustedTurn(t.queue, t.out, call);
    }
  }

  lemma StartingTurn(live: seq<Frame>, out: seq<Emit>, call: FrameCall)
    requires WellFormed(live) && live != [] && !Exhausted(live) && FrontIsClean(live)
    requires |out| < call.maximum
    ensures var f := FrameLoop(live, out, call).filled.out;
            && |f| < 2 * call.maximum
            && (|f| > call.maximum <==> OverfillsFrom(live, |out|, call))
  {
    hide Due, FrameLoopTurn, FrameLoop;
    UnfoldFrameLoop(live, out, call);
    UnexhaustedTurn(live, out, call);
  }

  /** A submission is always shorter than twice the maximum, and exceeds the maximum exactly when
      content does not fit behind the transition points that precede it. */
  lemma FrameFillBounds(queue: seq<Frame>, transition: seq<LaserPoint>, call: FrameCall)
    requires WellFormed(queue) && FrontIsClean(queue) && Leftover(queue, transition) && 0 < call.maximum
    ensures var f := FillFrameQueue(queue, transition, call).filled.out;
            && |f| < 2 * call.maximum
            && (|f| > call.maximum <==> Overfills(queue, transition, call))
  {
    hide FrameLoop, DropStale, OverfillsFrom;
    var n := Min(call.maximum, |transition|);
    var out := Transitions(transition[..n]);
    if queue != [] {
      var live := DropStale(queue, call.estimate);
      WellFormedSuffix(queue, |queue| - |live|);
      DropStaleKeepsClean(queue, call.estimate);
      if n == call.maximum {
        NothingFitsBehindAFullLeftover(live, |transition|, call);
      } else if Exhausted(live) {
        assert out == [];
        ExhaustedTurn(live, call);
      } else {
        StartingTurn(live, out, call);
      }
    }
  }

  lemma NothingFitsBehindAFullLeftover(live: seq<Frame>, leftover: nat, call: FrameCall)
    requires WellFormed(live) && live != [] && !Exhausted(live) && leftover >= call.maximum
    ensures !OverfillsFrom(live, leftover, call)
  {
  }

  lemma ConsistentIsReady(h: History, s: Sched, last: Option<Cursor>)
    requires Consistent(h, s, last)
    ensures WellFormed(s.All()) && FrontIsClean(s.All()) && Leftover(s.All(), s.pendingTransition)
  {
    LeftoverWithPending(s);
  }

  lemma PulledFrameIsFilled(s: Sched, request: FrameRequest, hold: Time, clock: Clock)
    requires WellFormed(s.All()) && request.maximum > 0
    ensures var call := FrameCall(request.maximum, request.blankCount, Estimate(request.renderTime, clock),
                                  request.advanceWhenAvailable, request.repeatWhenIdle, hold, clock);
            PulledFrame(s, request, hold, clock).1
              == FillFrameQueue(s.All(), s.pendingTransition, call).filled.out
  {
    hide FillFrameQueue, WellFormed;
  }

  /** Over every run, whatever its calls: a submission is shorter than twice its maximum. */
  lemma EverySubmissionIsBelowTwiceTheMaximum(ops: seq<Op>, request: FrameRequest, hold: Time, clock: Clock)
    requires request.maximum > 0
    ensures |PulledFrame(StateAfter(EMPTY, ops), request, hold, clock).1| < 2 * request.maximum
  {
    EveryRunFollowsOnePath(ops);
    hide *;
    var s := StateAfter(EMPTY, ops);
    var call := FrameCall(request.maximum, request.blankCount, Estimate(request.renderTime, clock),
                          request.advanceWhenAvailable, request.repeatWhenIdle, hold, clock);
    ConsistentIsReady(Accepted(EMPTY, ops), s, LastOf(None, Path(Output(EMPTY, ops))));
    PulledFrameIsFilled(s, request, hold, clock);
    FrameFillBounds(s.All(), s.pendingTransition, call);
  }

  /** Two frames far apart, shown in submissions of 1 and then of all but one point of the transition
      between them, the frames' other parameters being whatever they are. */
  ghost function LeavingOnePoint(request: FrameRequest, hold: Time, clock: Clock): seq<Op>
    requires |Bridge(HERE, THERE)| > 0
  {
    [Submit([HERE], 0),
     PullFrame(request.(maximum := 1), hold, clock),
     Submit([THERE, THERE], 0),
     PullFrame(request.(maximum := |Bridge(HERE, THERE)| - 1), hold, clock)]
  }

  lemma OneIsShown(s: Sched, front: Frame, request: FrameRequest, hold: Time, clock: Clock)
    requires WellFormed(s.All()) && s.All() == [front] && s.pendingTransition == []
    requires front.playCount == 0 && front.nextPoint == 0 && front.time == 0
    requires |front.points| == 1 && request.maximum == 1
    ensures var shown := front.(playCount := 1, nextPoint := 1, firstPlayTime := clock(1));
            PulledFrame(s, request, hold, clock).0 == s.(pendingFrames := [], frameQueue := [shown])
  {
    hide WellFormed, FrameLoop, FrameLoopTurn, FillFrameQueue, DropStale, Due, Bridge, Cross, Chunk;
    var call := FrameCall(1, request.blankCount, Estimate(request.renderTime, clock),
                          request.advanceWhenAvailable, request.repeatWhenIdle, hold, clock);
    OneIsFilled(front, call);
  }

  lemma OneIsFilled(front: Frame, call: FrameCall)
    requires WellFormed([front]) && front.playCount == 0 && front.nextPoint == 0 && front.time == 0
    requires |front.points| == 1 && call.maximum == 1
    ensures var f := FillFrameQueue([front], [], call).filled;
            && f.queue == [front.(playCount := 1, nextPoint := 1, firstPlayTime := call.clock(1))]
            && f.transition == []
  {
    hide *;
    var queue := [front];
    FillReachesTheLoop(queue, [], call);
    KeptFront(queue, call.estimate);
    NoTransitions();
    UnfoldFrameLoop(queue, [], call);
    OneIsStarted(front, call);
  }

  lemma NoTransitions()
    ensures Transitions([]) == []
  {
  }

  lemma OneIsStarted(front: Frame, call: FrameCall)
    requires WellFormed([front]) && front.playCount == 0 && front.nextPoint == 0 && front.time == 0
    requires |front.points| == 1 && call.maximum == 1
    ensures FrameLoopTurn([front], [], call)
         == Finish(Submission(Filled([front.(playCount := 1, nextPoint := 1, firstPlayTime := call.clock(1))],
                                     [], Chunk(front, 1)), 0))
  {
    hide Chunk, Bridge, Cross;
    assert [front][1..] == [];
  }

  lemma OnePointIsLeft(s: Sched, a: Frame, b: Frame, request: FrameRequest, hold: Time, clock: Clock)
    requires WellFormed(s.All()) && s.All() == [a, b] && s.pendingTransition == []
    requires WellFormed([a, b]) && Exhausted([a, b]) && a.playCount > 0 && b.time == 0
    requires a.points != [] && b.points != []
    requires 0 < request.maximum == |Bridge(Last(a.points), b.points[0])| - 1
    ensures var r := PulledFrame(s, request, hold, clock).0;
            r.All() == [b] && |r.pendingTransition| == 1
  {
    hide WellFormed, Exhausted, FrameLoop, FrameLoopTurn, FillFrameQueue, DropStale, Due, Bridge, Cross, Chunk;
    var call := FrameCall(request.maximum, request.blankCount, Estimate(request.renderTime, clock),
                          request.advanceWhenAvailable, request.repeatWhenIdle, hold, clock);
    OnePointRemains(a, b, call);
    assert [b] + [] == [b];
  }

  lemma OnePointRemains(a: Frame, b: Frame, call: FrameCall)
    requires WellFormed([a, b]) && Exhausted([a, b]) && a.playCount > 0 && b.time == 0
    requires a.points != [] && b.points != []
    requires 0 < call.maximum == |Bridge(Last(a.points), b.points[0])| - 1
    ensures var f := FillFrameQueue([a, b], [], call).filled;
            f.queue == [b] && |f.transition| == 1
  {
    hide *;
    var queue := [a, b];
    FillReachesTheLoop(queue, [], call);
    KeptFront(queue, call.estimate);
    NoTransitions();
    UnfoldFrameLoop(queue, [], call);
    BridgeFills(a, b, call);
  }

  lemma BridgeFills(a: Frame, b: Frame, call: FrameCall)
    requires WellFormed([a, b]) && Exhausted([a, b]) && a.playCount > 0 && b.time == 0
    requires a.points != [] && b.points != []
    requires 0 < call.maximum == |Bridge(Last(a.points), b.points[0])| - 1
    ensures var bridge := Bridge(Last(a.points), b.points[0]);
            FrameLoopTurn([a, b], [], call)
              == Finish(Submission(Filled([b], bridge[call.maximum..], Transitions(bridge[..call.maximum])), 0))
  {
    hide Bridge;
    assert [a, b][1..] == [b];
    var bridge := Bridge(Last(a.points), b.points[0]);
    assert [] + Transitions(bridge[..call.maximum]) == Transitions(bridge[..call.maximum]);
  }

  lemma PullIsPulled(s: Sched, op: Op)
    requires WellFormed(s.All()) && op.PullFrame?
    ensures After(s, op).0 == PulledFrame(s, op.frameRequest, op.hold, op.clock).0
  {
    hide PulledFrame;
  }

  lemma SubmissionIsPending(s: Sched, points: seq<LaserPoint>)
    requires WellFormed(s.All()) && s.pendingFrames == [] && points != []
    ensures var frame := Frame(s.accepted, points, 0, 0, 0, 0);
            var next := After(s, Submit(points, 0)).0;
            && next == s.(pendingFrames := [frame], nominal := |points|, accepted := s.accepted + 1)
            && next.All() == s.frameQueue + [frame]
  {
    hide WellFormed;
    assert s.pendingFrames + [Frame(s.accepted, points, 0, 0, 0, 0)] == [Frame(s.accepted, points, 0, 0, 0, 0)];
  }

  lemma AfterShowingOne(op: Op)
    requires op.PullFrame? && op.frameRequest.maximum == 1 && WellFormed(EMPTY.All())
    ensures After(After(EMPTY, Submit([HERE], 0)).0, op).0
         == Sched([], [Frame(0, [HERE], 0, 1, 1, op.clock(1))], [], 1, 1)
  {
    hide After, PulledFrame, HERE, WellFormed;
    var front := Frame(0, [HERE], 0, 0, 0, 0);
    SubmissionIsPending(EMPTY, [HERE]);
    var s := After(EMPTY, Submit([HERE], 0)).0;
    assert s.All() == [front];
    PullIsPulled(s, op);
    OneIsShown(s, front, op.frameRequest, op.hold, op.clock);
  }

  lemma AfterLeavingOne(s: Sched, shownAt: Time, op: Op)
    requires s == Sched([], [Frame(0, [HERE], 0, 1, 1, shownAt)], [], 1, 1) && WellFormed(s.All())
    requires |Bridge(HERE, THERE)| >= 4
    requires op.PullFrame? && op.frameRequest.maximum == |Bridge(HERE, THERE)| - 1
    ensures var r := After(After(s, Submit([THERE, THERE], 0)).0, op).0;
            r.All() == [Frame(1, [THERE, THERE], 0, 0, 0, 0)] && |r.pendingTransition| == 1
  {
    var a, b := Frame(0, [HERE], 0, 1, 1, shownAt), Frame(1, [THERE, THERE], 0, 0, 0, 0);
    assert WellFormed([a, b]);
    hide After, PulledFrame, HERE, THERE, Bridge, WellFormed;
    SubmissionIsPending(s, [THERE, THERE]);
    var s' := After(s, Submit([THERE, THERE], 0)).0;
    assert s'.All() == [a, b];
    PullIsPulled(s', op);
    OnePointIsLeft(s', a, b, op.frameRequest, op.hold, op.clock);
  }

  lemma FourSteps(run: seq<Op>)
    requires |run| == 4 && WellFormed(EMPTY.All())
    ensures var s1 := After(EMPTY, run[0]).0;
            var s2 := After(s1, run[1]).0;
            var s3 := After(s2, run[2]).0;
            StateAfter(EMPTY, run) == After(s3, run[3]).0
  {
    hide After, WellFormed;
    var s1 := After(EMPTY, run[0]).0;
    var s2 := After(s1, run[1]).0;
    var s3 := After(s2, run[2]).0;
    assert run[1..][1..] == run[2..] && run[2..][1..] == run[3..] && run[3..][1..] == [];
    assert StateAfter(EMPTY, run) == StateAfter(s1, run[1..]);
    assert StateAfter(s1, run[1..]) == StateAfter(s2, run[2..]);
    assert StateAfter(s2, run[2..]) == StateAfter(s3, run[3..]);
    assert run[3..][0] == run[3];
    assert StateAfter(s3, run[3..]) == StateAfter(After(s3, run[3]).0, []);
  }

  /** The maximum itself can be exceeded, on a run from an empty queue: a submission of at most 2
      points then comes out with 3, the leftover point and a whole frame. */
  lemma OneLeftoverPointOverfills(request: FrameRequest, hold: Time, clock: Clock)
    requires request.maximum == 2
    ensures WellFormed(EMPTY.All()) && |Bridge(HERE, THERE)| > 0
    ensures var run := LeavingOnePoint(request, hold, clock);
            |PulledFrame(StateAfter(EMPTY, run), request, hold, clock).1| == 3
  {
    BridgeIsLong();
    assert WellFormed(EMPTY.All());
    hide Bridge, HERE, THERE, EMPTY, After, StateAfter, WellFormed, PulledFrame;
    var run := LeavingOnePoint(request, hold, clock);
    AfterShowingOne(run[1]);
    var s2 := After(After(EMPTY, run[0]).0, run[1]).0;
    AfterLeavingOne(s2, clock(1), run[3]);
    FourSteps(run);
    LeftoverBeforeAFullFrame(StateAfter(EMPTY, run), request, hold, clock);
  }

  lemma LeftoverBeforeAFullFrame(s: Sched, request: FrameRequest, hold: Time, clock: Clock)
    requires s.All() == [Frame(1, [THERE, THERE], 0, 0, 0, 0)] && |s.pendingTransition| == 1
    requires request.maximum == 2
    ensures |PulledFrame(s, request, hold, clock).1| == 3
  {
    hide HERE, THERE, FillFrameQueue, PulledFrame;
    PulledFrameIsFilled(s, request, hold, clock);
    var call := FrameCall(2, request.blankCount, Estimate(request.renderTime, clock),
                          request.advanceWhenAvailable, request.repeatWhenIdle, hold, clock);
    LeftoverAndWholeFrame(s.All()[0], s.pendingTransition, call);
    assert s.All() == [s.All()[0]];
  }

  lemma LeftoverAndWholeFrame(front: Frame, transition: seq<LaserPoint>, call: FrameCall)
    requires |front.points| == 2 && front.nextPoint == 0 && front.playCount == 0 && front.time == 0
    requires |transition| == 1 && call.maximum == 2
    ensures WellFormed([front]) && |FillFrameQueue([front], transition, call).filled.out| == 3
  {
    hide FrameLoop, FrameLoopTurn, FillFrameQueue, DropStale;
    var queue, out := [front], Transitions(transition);
    FillReachesTheLoop(queue, transition, call);
    KeptFront(queue, call.estimate);
    UnfoldFrameLoop(queue, out, call);
    UnexhaustedTurn(queue, out, call);
  }

  /** A front frame that was played, or has no successor, is not skipped as stale. */
  lemma KeptFront(queue: seq<Frame>, estimate: Time)
    requires |queue| == 1 || (queue != [] && queue[0].playCount > 0)
    ensures DropStale(queue, estimate) == queue
  {
  }

  lemma FillReachesTheLoop(queue: seq<Frame>, transition: seq<LaserPoint>, call: FrameCall)
    requires WellFormed(queue) && queue != [] && |transition| < call.maximum
    ensures var live := DropStale(queue, call.estimate);
            WellFormed(live) && FillFrameQueue(queue, transition, call) == FrameLoop(live, Transitions(transition), call)
  {
    hide FrameLoop, DropStale;
    assert transition[..|transition|] == transition;
    WellFormedSuffix(queue, |queue| - |DropStale(queue, call.estimate)|);
  }
}
