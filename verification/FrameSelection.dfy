/** Which frame a fill shows first, after any run of calls, read off the queue it finds.

A front frame that was never played gives way to the latest of the frames that follow without a gap of
undue ones. A frame that was started is continued. A frame played to its end gives way to a successor
that may be taken, and otherwise is repeated, held, or dropped. */
module FrameSelection {
  import opened Arithmetic
  import opened FrameFreshness
  import opened FrameScheduler
  import opened FrameTrace
  import opened LaserPoints
  import opened Options

  // ----- what a fill shows -----

  /** A frame may start at once when it has no time, and otherwise from its time on. */
  ghost predicate MayStart(frame: Frame, estimate: Time) { frame.time == 0 || frame.time <= estimate }

  /** Frame n is the one a never-played front gives way to: all frames up to it may start, the next one,
      if there is one, may not. */
  ghost predicate Selected(queue: seq<Frame>, estimate: Time, n: nat)
  {
    && n < |queue|
    && (forall m :: 1 <= m <= n ==> MayStart(queue[m], estimate))
    && (n + 1 < |queue| ==> !MayStart(queue[n + 1], estimate))
  }

  /** `count` points of a frame in order, from point `first` on. */
  ghost function Points(frame: Frame, first: nat, count: nat): (out: seq<Emit>)
    requires first + count <= |frame.points|
    ensures |out| == count
  {
    seq(count, i requires 0 <= i < count => Content(frame.id, first + i, frame.points[first + i]))
  }

  ghost predicate Silent(out: seq<Emit>) { NoContent(out, 0, |out|) }

  /** d dark points, and then the frame from point `first` on, as far as a submission goes. */
  ghost predicate Submits(out: seq<Emit>, d: nat, frame: Frame, first: nat, maximum: nat)
  {
    && d <= |out| && NoContent(out, 0, d) && first <= |frame.points|
    && out[d..] == Points(frame, first, Min(|frame.points| - first, maximum))
  }

  /** d dark points, and then point `index` of the frame. */
  ghost predicate ShowsFirst(out: seq<Emit>, d: nat, frame: Frame, index: nat)
  {
    && d < |out| && NoContent(out, 0, d)
    && index < |frame.points| && out[d] == Content(frame.id, index, frame.points[index])
  }

  /** d dark points join one point to another: none within 0.2, and otherwise two for every whole 0.05. */
  ghost predicate JoinedBy(from: LaserPoint, to: LaserPoint, d: nat)
  {
    var distance2 := SquaredDistance(from, to);
    if distance2 <= 0.04 then d == 0
    else
      d % 2 == 0
      && (d / 2 * (d / 2)) as real <= 400.0 * distance2 < ((d / 2 + 1) * (d / 2 + 1)) as real
  }

  lemma BridgeInNumbers(from: LaserPoint, to: LaserPoint)
    ensures JoinedBy(from, to, |Bridge(from, to)|)
  {
    if FarApart(from, to) {
      var root := FloorSqrt(400.0 * SquaredDistance(from, to));
      if root < 2 { SmallSquare(root + 1); }
      assert |Bridge(from, to)| / 2 == root;
    }
  }

  lemma SmallSquare(n: nat)
    requires n <= 2
    ensures n * n <= 4
  {
    assert n == 0 || n == 1 || n == 2;
  }

  ghost predicate SubmitsAfter(out: seq<Emit>, d: nat, to: Frame, maximum: nat)
  {
    if d < maximum then Submits(out, d, to, 0, maximum) else Silent(out) && |out| == maximum
  }

  ghost predicate ShowsAfter(out: seq<Emit>, d: nat, to: Frame, maximum: nat)
  {
    if d < maximum then ShowsFirst(out, d, to, 0) else Silent(out) && |out| == maximum
  }

  /** The dark move that leads from the end of one frame to the start of another, as far as it fits, and
      then, if there is room, the frame. */
  ghost predicate SubmitsJoined(out: seq<Emit>, from: Frame, to: Frame, maximum: nat)
    requires from.points != [] && to.points != []
  {
    exists d: nat :: JoinedBy(from.points[|from.points| - 1], to.points[0], d)
      && SubmitsAfter(out, d, to, maximum)
  }

  ghost predicate ShowsJoined(out: seq<Emit>, from: Frame, to: Frame, maximum: nat)
    requires from.points != [] && to.points != []
  {
    exists d: nat :: JoinedBy(from.points[|from.points| - 1], to.points[0], d)
      && ShowsAfter(out, d, to, maximum)
  }

  /** Played to its end. */
  ghost predicate PlayedOut(queue: seq<Frame>) { queue != [] && queue[0].nextPoint == |queue[0].points| }

  // ----- skipping -----

  lemma {:induction false} SkipsTo(queue: seq<Frame>, estimate: Time) returns (n: nat)
    requires WellFormed(queue) && queue != [] && queue[0].playCount == 0
    ensures Selected(queue, estimate, n) && DropStale(queue, estimate) == queue[n..]
    decreases |queue|
  {
    if |queue| > 1 && Due(queue[1], estimate) {
      WellFormedSuffix(queue, 1);
      var m := SkipsTo(queue[1..], estimate);
      n := m + 1;
      assert queue[1..][m..] == queue[n..];
      forall k | 1 <= k <= n
        ensures MayStart(queue[k], estimate)
      {
        if k > 1 { assert queue[k] == queue[1..][k - 1]; }
      }
    } else {
      n := 0;
      assert queue[0..] == queue;
    }
  }

  lemma OnlyOneIsSelected(queue: seq<Frame>, estimate: Time, n: nat, m: nat)
    requires Selected(queue, estimate, n) && Selected(queue, estimate, m)
    ensures n == m
  {
  }

  // ----- submissions of frames -----

  lemma DarkThenPoints(out: seq<Emit>, frame: Frame, count: nat)
    requires Silent(out) && frame.nextPoint + count <= |frame.points|
    ensures NoContent(out + Chunk(frame, count), 0, |out|)
    ensures (out + Chunk(frame, count))[|out|..] == Points(frame, frame.nextPoint, count)
  {
  }

  /** The front frame is neither played out nor waiting for its time: it is shown from its cursor on. */
  lemma FrontIsSubmitted(queue: seq<Frame>, out: seq<Emit>, call: FrameCall)
    requires WellFormed(queue) && queue != [] && |out| < call.maximum && Silent(out)
    requires queue[0].nextPoint < |queue[0].points|
    requires queue[0].playCount > 0 || call.advance || MayStart(queue[0], call.estimate)
    ensures Submits(FrameLoop(queue, out, call).filled.out, |out|, queue[0], queue[0].nextPoint, call.maximum)
    ensures FrameLoop(queue, out, call).filled.queue != []
    ensures FrameLoop(queue, out, call).filled.queue[1..] == queue[1..]
  {
    UnfoldFrameLoop(queue, out, call);
    hide FrameLoop;
    var front := queue[0];
    DarkThenPoints(out, front, Min(|front.points| - front.nextPoint, call.maximum));
  }

  lemma TransitionsAreSilent(points: seq<LaserPoint>)
    ensures Silent(Transitions(points))
  {
  }

  lemma BlanksAreSilent(queue: seq<Frame>, call: FrameCall)
    ensures Silent(BlankSubmission(queue, call).filled.out)
  {
  }

  /** What a submission of a queue with a never-played front holds. */
  ghost predicate StartsFresh(queue: seq<Frame>, d: nat, out: seq<Emit>, n: nat, call: FrameCall)
    requires n < |queue|
  {
    if d < call.maximum && (call.advance || MayStart(queue[n], call.estimate))
    then Submits(out, d, queue[n], 0, call.maximum)
    else Silent(out)
  }

  lemma NeverPlayedIsSkipped(queue: seq<Frame>, transition: seq<LaserPoint>, call: FrameCall) returns (n: nat)
    requires WellFormed(queue) && call.maximum > 0 && queue != [] && queue[0].playCount == 0
    requires forall i :: 0 <= i < |queue| ==> queue[i].nextPoint == 0 && queue[i].playCount == 0
    ensures Selected(queue, call.estimate, n)
    ensures StartsFresh(queue, |transition|, FillFrameQueue(queue, transition, call).filled.out, n, call)
  {
    hide FrameLoop, DropStale;
    n := SkipsTo(queue, call.estimate);
    var d := Min(call.maximum, |transition|);
    var out := Transitions(transition[..d]);
    TransitionsAreSilent(transition[..d]);
    if d < call.maximum {
      WellFormedSuffix(queue, n);
      if call.advance || MayStart(queue[n], call.estimate) {
        FrontIsSubmitted(queue[n..], out, call);
      } else {
        UnfoldFrameLoop(queue[n..], out, call);
        BlanksAreSilent(queue[n..], call);
      }
    }
  }

  /** The front is played out and the turn of its successor has come. */
  ghost predicate GivesWay(queue: seq<Frame>, estimate: Time, advance: bool)
  {
    |queue| > 1 && (advance || MayStart(queue[1], estimate))
  }

  lemma StartedIsKept(queue: seq<Frame>, estimate: Time)
    requires queue != [] && queue[0].playCount > 0
    ensures DropStale(queue, estimate) == queue
  {
  }

  lemma NothingDrained(queue: seq<Frame>, call: FrameCall)
    requires WellFormed(queue) && call.maximum > 0 && queue != [] && queue[0].playCount > 0
    ensures FillFrameQueue(queue, [], call) == FrameLoop(queue, [], call)
  {
    hide FrameLoop;
    StartedIsKept(queue, call.estimate);
    assert Transitions([][..0]) == [];
  }

  /** A frame played out, its successor not to be taken, its hold not over. */
  lemma IdleSubmission(queue: seq<Frame>, call: FrameCall)
    requires WellFormed(queue) && call.maximum > 0 && PlayedOut(queue) && queue[0].playCount > 0
    requires !GivesWay(queue, call.estimate, call.advance)
    requires call.hold <= 0 || call.clock(2) - queue[0].firstPlayTime < call.hold
    ensures var f := FillFrameQueue(queue, [], call).filled;
            if call.repeat then Submits(f.out, 0, queue[0], 0, call.maximum) && f.queue != [] && f.queue[1..] == queue[1..]
            else f.out == [] && f.queue == queue
  {
    NothingDrained(queue, call);
    hide FillFrameQueue, FrameLoop, DropStale;
    UnfoldFrameLoop(queue, [], call);
    if call.repeat {
      var again := [queue[0].(nextPoint := 0)] + queue[1..];
      assert again[1..] == queue[1..];
      FrontIsSubmitted(again, [], call);
      SamePoints(queue[0], again[0], FrameLoop(again, [], call).filled.out, call.maximum);
    }
  }

  lemma SamePoints(frame: Frame, again: Frame, out: seq<Emit>, maximum: nat)
    requires frame.id == again.id && frame.points == again.points
    requires Submits(out, 0, again, 0, maximum)
    ensures Submits(out, 0, frame, 0, maximum)
  {
  }

  /** ... and when its hold is over it leaves the queue, and blanks are sent. */
  lemma HeldSubmission(queue: seq<Frame>, call: FrameCall)
    requires WellFormed(queue) && call.maximum > 0 && PlayedOut(queue) && queue[0].playCount > 0
    requires !GivesWay(queue, call.estimate, call.advance)
    requires call.hold > 0 && call.clock(2) - queue[0].firstPlayTime >= call.hold
    ensures var f := FillFrameQueue(queue, [], call).filled;
            Silent(f.out) && |f.out| == Min(call.blankCount, call.maximum) && f.queue == queue[1..]
  {
    NothingDrained(queue, call);
    hide FillFrameQueue, FrameLoop, DropStale;
    UnfoldFrameLoop(queue, [], call);
    BlanksAreSilent(queue[1..], call);
  }

  lemma TurnGivesWay(queue: seq<Frame>, call: FrameCall, bridge: seq<LaserPoint>)
    requires WellFormed(queue) && call.maximum > 0 && PlayedOut(queue) && queue[0].playCount > 0
    requires GivesWay(queue, call.estimate, call.advance)
    requires bridge == Bridge(Last(queue[0].points), queue[1].points[0])
    ensures FrameLoopTurn(queue, [], call)
         == match Cross(queue[1..], [], call.maximum, bridge)
            case Done(filled) => Finish(Submission(filled, 0))
            case Again(queue', out') => Continue(queue', out')
  {
    hide Bridge, Cross;
  }

  lemma CrossFromNothing(queue: seq<Frame>, maximum: nat, bridge: seq<LaserPoint>)
    requires maximum > 0
    ensures Cross(queue, [], maximum, bridge)
         == if |bridge| < maximum then Again(queue, Transitions(bridge))
            else Done(Filled(queue, bridge[maximum..], Transitions(bridge[..maximum])))
  {
    var n := Min(maximum, |bridge|);
    assert [] + Transitions(bridge[..n]) == Transitions(bridge[..n]);
    if |bridge| < maximum { assert bridge[..n] == bridge; }
  }

  lemma FrameCrosses(queue: seq<Frame>, call: FrameCall, bridge: seq<LaserPoint>)
    requires WellFormed(queue) && call.maximum > 0 && PlayedOut(queue) && queue[0].playCount > 0
    requires GivesWay(queue, call.estimate, call.advance)
    requires bridge == Bridge(Last(queue[0].points), queue[1].points[0])
    ensures SubmitsAfter(FrameLoop(queue, [], call).filled.out, |bridge|, queue[1], call.maximum)
  {
    hide FrameLoop, Bridge, FrameLoopTurn, Cross;
    UnfoldFrameLoop(queue, [], call);
    TurnGivesWay(queue, call, bridge);
    CrossFromNothing(queue[1..], call.maximum, bridge);
    if |bridge| < call.maximum {
      TransitionsAreSilent(bridge);
      FrontIsSubmitted(queue[1..], Transitions(bridge), call);
    } else {
      TransitionsAreSilent(bridge[..call.maximum]);
    }
  }

  /** A successor that may be taken is taken. */
  lemma SuccessorSubmission(queue: seq<Frame>, call: FrameCall)
    requires WellFormed(queue) && call.maximum > 0 && PlayedOut(queue) && queue[0].playCount > 0
    requires GivesWay(queue, call.estimate, call.advance)
    ensures SubmitsJoined(FillFrameQueue(queue, [], call).filled.out, queue[0], queue[1], call.maximum)
  {
    NothingDrained(queue, call);
    hide FillFrameQueue, FrameLoop, Bridge, JoinedBy, Submits, Silent;
    var from, to := queue[0].points[|queue[0].points| - 1], queue[1].points[0];
    var bridge := Bridge(from, to);
    BridgeInNumbers(from, to);
    FrameCrosses(queue, call, bridge);
    assert JoinedBy(from, to, |bridge|);
  }

  // ----- point fills -----

  lemma {:induction false} LoopExtends(queue: seq<Frame>, out: seq<Emit>, k: nat, call: PointCall)
    requires WellFormed(queue) && queue != [] && |out| < call.maximum
    ensures out <= PointLoop(queue, out, k, call).out
    decreases call.maximum - |out|, Exhausted(queue)
  {
    hide PointTurn, WellFormed, ShowsChunk, NoContent, Exhausted;
    TurnShowsChunk(queue, out, k, call);
    var t := PointTurn(queue, out, k, call);
    var chunk := TurnChunk(queue, out, call);
    StartsWith(queue, out, chunk, if t.Done? then t.result.out else t.out);
    if t.Again? {
      PointTurnGoesOn(queue, out, k, call);
      LoopExtends(t.queue, t.out, k + 1, call);
    }
  }

  /** A front frame that is not played out is shown from its cursor on. */
  lemma FrontIsShown(queue: seq<Frame>, out: seq<Emit>, k: nat, call: PointCall)
    requires WellFormed(queue) && queue != [] && |out| < call.maximum && Silent(out)
    requires queue[0].nextPoint < |queue[0].points|
    ensures ShowsFirst(PointLoop(queue, out, k, call).out, |out|, queue[0], queue[0].nextPoint)
  {
    var t := PointTurn(queue, out, k, call);
    var o := if t.Done? then t.result.out else t.out;
    FirstOfChunk(queue, out, k, call, o);
    hide PointTurn;
    if t.Again? {
      PointTurnGoesOn(queue, out, k, call);
      LoopExtends(t.queue, t.out, k + 1, call);
    }
  }

  lemma FirstOfChunk(queue: seq<Frame>, out: seq<Emit>, k: nat, call: PointCall, o: seq<Emit>)
    requires WellFormed(queue) && queue != [] && |out| < call.maximum && Silent(out)
    requires queue[0].nextPoint < |queue[0].points|
    requires var t := PointTurn(queue, out, k, call); o == if t.Done? then t.result.out else t.out
    ensures ShowsFirst(o, |out|, queue[0], queue[0].nextPoint)
  {
    hide PointTurn;
    var front := Started(queue[0], call.clock(2 * k + 1));
    var chunk := Chunk(front, TurnChunk(queue, out, call));
    var dark := TurnAddsDarkness(queue, out, k, call);
    assert o[|out|] == chunk[0];
    assert forall m :: 0 <= m < |out| ==> o[m] == out[m];
  }

  /** What a point fill of a queue with a never-played front begins with. */
  ghost predicate BeginsFresh(queue: seq<Frame>, d: nat, out: seq<Emit>, n: nat, call: PointCall)
    requires n < |queue|
  {
    if d < call.maximum && MayStart(queue[n], call.estimate) then ShowsFirst(out, d, queue[n], 0) else Silent(out)
  }

  lemma BlanksFollowSilently(out: seq<Emit>, count: nat)
    requires Silent(out)
    ensures Silent(out + Blanks(count))
  {
  }

  lemma NeverPlayedGivesWay(queue: seq<Frame>, transition: seq<LaserPoint>, call: PointCall) returns (n: nat)
    requires WellFormed(queue) && call.maximum > 0 && queue != []
    requires forall i :: 0 <= i < |queue| ==> queue[i].nextPoint == 0 && queue[i].playCount == 0
    ensures Selected(queue, call.estimate, n)
    ensures BeginsFresh(queue, |transition|, FillPointsQueue(queue, transition, call).out, n, call)
  {
    hide PointLoop, DropStale;
    n := SkipsTo(queue, call.estimate);
    var d := Min(call.maximum, |transition|);
    var out := Transitions(transition[..d]);
    TransitionsAreSilent(transition[..d]);
    BlanksFollowSilently(out, call.minimum);
    if d < call.maximum && MayStart(queue[n], call.estimate) {
      WellFormedSuffix(queue, n);
      FrontIsShown(queue[n..], out, 0, call);
    }
  }

  lemma TurnOfPlayedOut(queue: seq<Frame>, call: PointCall)
    requires WellFormed(queue) && call.maximum > 0 && PlayedOut(queue) && queue[0].playCount > 0
    requires call.minimum > 0
    ensures var front := queue[0];
            var again := front.(nextPoint := 0, playCount := front.playCount + 1);
            PointTurn(queue, [], 0, call)
              == if GivesWay(queue, call.estimate, false) then
                   Cross(queue[1..], [], call.maximum, Bridge(Last(front.points), queue[1].points[0]))
                 else if call.hold > 0 && call.clock(2) - front.firstPlayTime >= call.hold then
                   Done(Filled(queue[1..], [], Blanks(call.minimum)))
                 else
                   Cross([again] + queue[1..], [], call.maximum, Bridge(Last(front.points), front.points[0]))
  {
    hide Bridge, Cross;
    var front := Started(queue[0], call.clock(1));
    assert [] + Chunk(front, 0) == [];
    assert PlayTime(0, call.rate) == 0;
    assert [] + Blanks(call.minimum) == Blanks(call.minimum);
  }

  /** The loop crosses over to a frame and shows it. */
  lemma PointsCross(queue: seq<Frame>, next: seq<Frame>, to: Frame, call: PointCall, bridge: seq<LaserPoint>)
    requires WellFormed(queue) && queue != [] && call.maximum > 0
    requires next != [] && next[0].id == to.id && next[0].points == to.points && next[0].nextPoint == 0
    requires PointTurn(queue, [], 0, call) == Cross(next, [], call.maximum, bridge)
    ensures var out := PointLoop(queue, [], 0, call).out;
            ShowsAfter(out, |bridge|, to, call.maximum)
  {
    hide PointTurn, Cross;
    CrossFromNothing(next, call.maximum, bridge);
    if |bridge| < call.maximum {
      TransitionsAreSilent(bridge);
      PointTurnGoesOn(queue, [], 0, call);
      FrontIsShown(next, Transitions(bridge), 1, call);
    } else {
      TransitionsAreSilent(bridge[..call.maximum]);
    }
  }

  /** A frame played out, in a request for at least one point. */
  lemma PlayedOutGoesOn(queue: seq<Frame>, call: PointCall)
    requires WellFormed(queue) && call.maximum > 0 && PlayedOut(queue) && queue[0].playCount > 0
    requires call.minimum > 0
    ensures var f := FillPointsQueue(queue, [], call);
            if GivesWay(queue, call.estimate, false) then ShowsJoined(f.out, queue[0], queue[1], call.maximum)
            else if call.hold > 0 && call.clock(2) - queue[0].firstPlayTime >= call.hold then
              Silent(f.out) && |f.out| == call.minimum && f.queue == queue[1..]
            else ShowsJoined(f.out, queue[0], queue[0], call.maximum)
  {
    hide FillPointsQueue, PointLoop, Cross, Bridge, ShowsJoined, Silent, PointTurn;
    NothingDrainedForPoints(queue, call);
    TurnOfPlayedOut(queue, call);
    if GivesWay(queue, call.estimate, false) {
      TurnCrosses(queue, queue[1..], queue[1], call);
    } else if call.hold > 0 && call.clock(2) - queue[0].firstPlayTime >= call.hold {
      SilentBlanks(call.minimum);
      DoneEndsTheLoop(queue, call);
    } else {
      var again := queue[0].(nextPoint := 0, playCount := queue[0].playCount + 1);
      TurnCrosses(queue, [again] + queue[1..], queue[0], call);
    }
  }

  lemma DoneEndsTheLoop(queue: seq<Frame>, call: PointCall)
    requires WellFormed(queue) && queue != [] && call.maximum > 0 && PointTurn(queue, [], 0, call).Done?
    ensures PointLoop(queue, [], 0, call) == PointTurn(queue, [], 0, call).result
  {
    hide PointTurn;
  }

  lemma TurnCrosses(queue: seq<Frame>, next: seq<Frame>, to: Frame, call: PointCall)
    requires WellFormed(queue) && queue != [] && call.maximum > 0
    requires next != [] && next[0].id == to.id && next[0].points == to.points && next[0].nextPoint == 0
    requires queue[0].points != [] && to.points != []
    requires PointTurn(queue, [], 0, call)
          == Cross(next, [], call.maximum, Bridge(Last(queue[0].points), to.points[0]))
    ensures ShowsJoined(PointLoop(queue, [], 0, call).out, queue[0], to, call.maximum)
  {
    hide PointLoop, PointTurn, Cross, Bridge, JoinedBy, ShowsAfter;
    var from := queue[0].points[|queue[0].points| - 1];
    var bridge := Bridge(from, to.points[0]);
    BridgeInNumbers(from, to.points[0]);
    PointsCross(queue, next, to, call, bridge);
    assert JoinedBy(from, to.points[0], |bridge|);
  }

  lemma SilentBlanks(count: nat)
    ensures Silent(Blanks(count))
  {
  }

  lemma NothingDrainedForPoints(queue: seq<Frame>, call: PointCall)
    requires WellFormed(queue) && call.maximum > 0 && queue != [] && queue[0].playCount > 0
    ensures FillPointsQueue(queue, [], call) == PointLoop(queue, [], 0, call)
  {
    hide PointLoop;
    StartedIsKept(queue, call.estimate);
    assert Transitions([][..0]) == [];
  }

  // ----- over runs -----

  /** When the first point of a request will show: as the request says, or else at the reading taken on
      entry. */
  ghost function StartTime(requested: Time, now: Time): Time { if requested == 0 then now else requested }

  /** What holds of the queue after any run of calls. */
  lemma QueueAfterRun(ops: seq<Op>)
    ensures var s := StateAfter(EMPTY, ops);
            var queue := s.All();
            && WellFormed(queue)
            && (s.pendingTransition != [] ==> queue != [] && queue[0].nextPoint == 0)
            && (queue != [] && queue[0].playCount == 0 ==>
                  forall i :: 0 <= i < |queue| ==> queue[i].nextPoint == 0 && queue[i].playCount == 0)
  {
    hide Path, OnePath, AllHonest, StateAfter, Output, Accepted, Resumes, Ordered;
    EveryRunFollowsOnePath(ops);
    var h := Accepted(EMPTY, ops);
    var s := StateAfter(EMPTY, ops);
    LeftoverWithPending(s);
    if s.All() != [] && s.All()[0].playCount == 0 {
      assert Genuine(h, s.accepted, s.All()[0]);
    }
  }

  /** A point request after any run that finds a front frame of which nothing was played: it begins with
      the first point of the frame selected, right after leftover dark points, and when that frame may
      not start, it holds no content at all. */
  lemma StaleFramesGiveWayToPoints(ops: seq<Op>, op: Op)
    requires op.PullPoints? && op.pointRequest.maximum > 0
    requires var queue := StateAfter(EMPTY, ops).All(); queue != [] && queue[0].playCount == 0
    ensures var s := StateAfter(EMPTY, ops);
            var queue, out, maximum := s.All(), After(s, op).1, op.pointRequest.maximum;
            var estimate := StartTime(op.pointRequest.renderTime, op.clock(0));
            exists n: nat :: Selected(queue, estimate, n) &&
              if |s.pendingTransition| < maximum && MayStart(queue[n], estimate)
              then ShowsFirst(out, |s.pendingTransition|, queue[n], 0)
              else Silent(out)
  {
    hide StateAfter, FillPointsQueue, Selected, ShowsFirst, Silent;
    QueueAfterRun(ops);
    var s := StateAfter(EMPTY, ops);
    var call := PointCallOf(op);
    var n := NeverPlayedGivesWay(s.All(), s.pendingTransition, call);
  }

  /** The same of a frame request: the submission is the selected frame, after leftover dark points, up to
      the maximum. With `advanceWhenAvailable` that frame need not be due. */
  lemma StaleFramesGiveWayToFrames(ops: seq<Op>, op: Op)
    requires op.PullFrame? && op.frameRequest.maximum > 0
    requires var queue := StateAfter(EMPTY, ops).All(); queue != [] && queue[0].playCount == 0
    ensures var s := StateAfter(EMPTY, ops);
            var queue, out, maximum := s.All(), After(s, op).1, op.frameRequest.maximum;
            var estimate := StartTime(op.frameRequest.renderTime, op.clock(0));
            exists n: nat :: Selected(queue, estimate, n) &&
              if |s.pendingTransition| < maximum
                 && (op.frameRequest.advanceWhenAvailable || MayStart(queue[n], estimate))
              then Submits(out, |s.pendingTransition|, queue[n], 0, maximum)
              else Silent(out)
  {
    hide StateAfter, FillFrameQueue, Selected, Submits, Silent;
    QueueAfterRun(ops);
    var s := StateAfter(EMPTY, ops);
    var n := NeverPlayedIsSkipped(s.All(), s.pendingTransition, FrameCallOf(op));
  }

  ghost function PointCallOf(op: Op): PointCall
    requires op.PullPoints?
  {
    var request := op.pointRequest;
    PointCall(request.minimum, request.maximum, Estimate(request.renderTime, op.clock),
              op.rate, op.hold, op.clock)
  }

  ghost function FrameCallOf(op: Op): FrameCall
    requires op.PullFrame?
  {
    var request := op.frameRequest;
    FrameCall(request.maximum, request.blankCount, Estimate(request.renderTime, op.clock),
              request.advanceWhenAvailable, request.repeatWhenIdle, op.hold, op.clock)
  }

  ghost predicate HoldOver(frame: Frame, hold: Time, now: Time) { hold > 0 && now - frame.firstPlayTime >= hold }

  /** A frame request after any run that finds its front frame played to its end. A successor that may be
      taken is submitted, after the dark move to it. Otherwise, once the hold is over the frame is
      dropped for blanks; before that the frame is submitted again from its start if repetition is
      asked for, and if not, nothing is submitted and the queue stays as it is. */
  lemma PlayedOutSubmission(ops: seq<Op>, op: Op)
    requires op.PullFrame? && op.frameRequest.maximum > 0
    requires PlayedOut(StateAfter(EMPTY, ops).All())
    ensures var s := StateAfter(EMPTY, ops);
            var queue, request, r := s.All(), op.frameRequest, After(s, op);
            var estimate := StartTime(request.renderTime, op.clock(0));
            if |queue| > 1 && (request.advanceWhenAvailable || MayStart(queue[1], estimate)) then
              queue[0].points != [] && queue[1].points != [] &&
              SubmitsJoined(r.1, queue[0], queue[1], request.maximum)
            else if HoldOver(queue[0], op.hold, op.clock(2)) then
              Silent(r.1) && |r.1| == Min(request.blankCount, request.maximum) && r.0.All() == queue[1..]
            else if request.repeatWhenIdle then
              Submits(r.1, 0, queue[0], 0, request.maximum) && r.0.All() != [] && r.0.All()[1..] == queue[1..]
            else r.1 == [] && r.0.All() == queue
  {
    hide StateAfter, FillFrameQueue, Submits, Silent, SubmitsJoined;
    QueueAfterRun(ops);
    var s := StateAfter(EMPTY, ops);
    var queue := s.All();
    var call := FrameCallOf(op);
    assert s.pendingTransition == [] && queue[0].playCount > 0;
    var r := After(s, op);
    assert r.0.All() == FillFrameQueue(queue, [], call).filled.queue;
    if GivesWay(queue, call.estimate, call.advance) {
      SuccessorSubmission(queue, call);
    } else if HoldOver(queue[0], op.hold, op.clock(2)) {
      HeldSubmission(queue, call);
    } else {
      IdleSubmission(queue, call);
    }
  }

  /** The same of a point request for at least one point, which always repeats. */
  lemma PlayedOutPoints(ops: seq<Op>, op: Op)
    requires op.PullPoints? && op.pointRequest.maximum > 0 && op.pointRequest.minimum > 0
    requires PlayedOut(StateAfter(EMPTY, ops).All())
    ensures var s := StateAfter(EMPTY, ops);
            var queue, request, r := s.All(), op.pointRequest, After(s, op);
            var estimate := StartTime(request.renderTime, op.clock(0));
            && queue[0].points != [] && (|queue| > 1 ==> queue[1].points != [])
            && if |queue| > 1 && MayStart(queue[1], estimate) then
                 ShowsJoined(r.1, queue[0], queue[1], request.maximum)
               else if HoldOver(queue[0], op.hold, op.clock(2)) then
                 Silent(r.1) && |r.1| == request.minimum && r.0.All() == queue[1..]
               else ShowsJoined(r.1, queue[0], queue[0], request.maximum)
  {
    hide StateAfter, FillPointsQueue, Silent, ShowsJoined;
    QueueAfterRun(ops);
    var s := StateAfter(EMPTY, ops);
    var queue := s.All();
    var call := PointCallOf(op);
    assert s.pendingTransition == [] && queue[0].playCount > 0;
    assert After(s, op).0.All() == FillPointsQueue(queue, [], call).queue;
    PlayedOutGoesOn(queue, call);
  }

  lemma StartedGoesOnInPoints(queue: seq<Frame>, transition: seq<LaserPoint>, call: PointCall)
    requires WellFormed(queue) && |transition| < call.maximum
    requires queue != [] && queue[0].playCount > 0 && queue[0].nextPoint < |queue[0].points|
    ensures ShowsFirst(FillPointsQueue(queue, transition, call).out, |transition|, queue[0], queue[0].nextPoint)
  {
    hide PointLoop, DropStale;
    assert transition[..|transition|] == transition;
    TransitionsAreSilent(transition);
    StartedIsKept(queue, call.estimate);
    FrontIsShown(queue, Transitions(transition), 0, call);
  }

  lemma StartedGoesOnInFrames(queue: seq<Frame>, transition: seq<LaserPoint>, call: FrameCall)
    requires WellFormed(queue) && |transition| < call.maximum
    requires queue != [] && queue[0].playCount > 0 && queue[0].nextPoint < |queue[0].points|
    ensures Submits(FillFrameQueue(queue, transition, call).filled.out, |transition|,
                    queue[0], queue[0].nextPoint, call.maximum)
  {
    hide FrameLoop, DropStale;
    assert transition[..|transition|] == transition;
    TransitionsAreSilent(transition);
    StartedIsKept(queue, call.estimate);
    FrontIsSubmitted(queue, Transitions(transition), call);
  }

  /** A frame that was started and not finished is continued by either request, after leftover dark
      points. */
  lemma StartedFramesContinue(ops: seq<Op>, op: Op)
    requires var queue := StateAfter(EMPTY, ops).All();
             queue != [] && queue[0].playCount > 0 && queue[0].nextPoint < |queue[0].points|
    ensures var s := StateAfter(EMPTY, ops);
            var front, d, out := s.All()[0], |s.pendingTransition|, After(s, op).1;
            && (op.PullPoints? && d < op.pointRequest.maximum ==> ShowsFirst(out, d, front, front.nextPoint))
            && (op.PullFrame? && d < op.frameRequest.maximum ==>
                  Submits(out, d, front, front.nextPoint, op.frameRequest.maximum))
  {
    hide StateAfter, FillPointsQueue, FillFrameQueue, ShowsFirst, Submits;
    QueueAfterRun(ops);
    var s := StateAfter(EMPTY, ops);
    if op.PullPoints? && |s.pendingTransition| < op.pointRequest.maximum {
      StartedGoesOnInPoints(s.All(), s.pendingTransition, PointCallOf(op));
    }
    if op.PullFrame? && |s.pendingTransition| < op.frameRequest.maximum {
      StartedGoesOnInFrames(s.All(), s.pendingTransition, FrameCallOf(op));
    }
  }

  /** With nothing queued a point request gets as many blanks as the least it asks for, and a frame
      request the blanks it names, up to its maximum. */
  lemma EmptyQueueIsDark(ops: seq<Op>, op: Op)
    requires StateAfter(EMPTY, ops).All() == []
    ensures var out := After(StateAfter(EMPTY, ops), op).1;
            && Silent(out)
            && (op.PullPoints? ==> |out| == if op.pointRequest.maximum == 0 then 0 else op.pointRequest.minimum)
            && (op.PullFrame? ==> |out| == Min(op.frameRequest.blankCount, op.frameRequest.maximum))
  {
    hide StateAfter, FillPointsQueue, FillFrameQueue, After;
    QueueAfterRun(ops);
    var s := StateAfter(EMPTY, ops);
    match op {
      case PullPoints(_, _, _, _) => NothingPulled(s, op);
      case PullFrame(_, _, _) => NothingSubmitted(s, op);
      case _ => OnlyPullsEmit(s, op);
    }
  }

  lemma OnlyPullsEmit(s: Sched, op: Op)
    requires WellFormed(s.All()) && !op.PullPoints? && !op.PullFrame?
    ensures After(s, op).1 == []
  {
    hide Enqueue, TryEnqueue;
  }

  lemma NothingPulled(s: Sched, op: Op)
    requires WellFormed(s.All()) && s.All() == [] && s.pendingTransition == [] && op.PullPoints?
    ensures var out := After(s, op).1;
            Silent(out) && |out| == if op.pointRequest.maximum == 0 then 0 else op.pointRequest.minimum
  {
    hide FillPointsQueue;
    if op.pointRequest.maximum > 0 {
      NothingToPull(PointCallOf(op));
    }
  }

  lemma NothingSubmitted(s: Sched, op: Op)
    requires WellFormed(s.All()) && s.All() == [] && s.pendingTransition == [] && op.PullFrame?
    ensures var out := After(s, op).1;
            Silent(out) && |out| == Min(op.frameRequest.blankCount, op.frameRequest.maximum)
  {
    hide FillFrameQueue;
    if op.frameRequest.maximum > 0 {
      NothingToSubmit(FrameCallOf(op));
    }
  }

  lemma NothingToPull(call: PointCall)
    requires call.maximum > 0
    ensures FillPointsQueue([], [], call).out == Blanks(call.minimum)
    ensures Silent(FillPointsQueue([], [], call).out)
  {
    assert Transitions([][..0]) == [];
    assert [] + Blanks(call.minimum) == Blanks(call.minimum);
    SilentBlanks(call.minimum);
  }

  lemma NothingToSubmit(call: FrameCall)
    requires call.maximum > 0
    ensures FillFrameQueue([], [], call).filled.out == Blanks(Min(call.blankCount, call.maximum))
    ensures Silent(FillFrameQueue([], [], call).filled.out)
  {
    assert Transitions([][..0]) == [];
    SilentBlanks(Min(call.blankCount, call.maximum));
  }

  // ----- the time on a submission -----

  /** Output that begins with content carries the time of the queued frame it begins with, any other
      none. */
  ghost predicate TimeOfFirst(queue: seq<Frame>, out: seq<Emit>, time: Time)
  {
    if out == [] || !out[0].Content? then time == 0
    else exists frame: Frame :: frame in queue && frame.id == out[0].id && frame.time == time
  }

  lemma SubmissionCarriesItsTime(ops: seq<Op>, op: Op)
    requires op.PullFrame?
    ensures var s := StateAfter(EMPTY, ops);
            var r := PulledFrame(s, op.frameRequest, op.hold, op.clock);
            r.1 == After(s, op).1 && TimeOfFirst(s.All(), r.1, r.2)
  {
    hide StateAfter, After, PulledFrame, TimeOfFirst;
    PullCarriesItsTime(StateAfter(EMPTY, ops), op);
    PullIsTheCall(StateAfter(EMPTY, ops), op);
  }

  lemma PullIsTheCall(s: Sched, op: Op)
    requires WellFormed(s.All()) && op.PullFrame?
    ensures After(s, op).1 == PulledFrame(s, op.frameRequest, op.hold, op.clock).1
  {
    hide PulledFrame;
  }

  lemma PullCarriesItsTime(s: Sched, op: Op)
    requires WellFormed(s.All()) && op.PullFrame?
    ensures var r := PulledFrame(s, op.frameRequest, op.hold, op.clock);
            TimeOfFirst(s.All(), r.1, r.2)
  {
    hide FillFrameQueue, WellFormed;
    if op.frameRequest.maximum > 0 {
      hide TimeOfFirst;
      FillCarriesItsTime(s.All(), s.pendingTransition, FrameCallOf(op));
    }
  }

  lemma FillCarriesItsTime(queue: seq<Frame>, transition: seq<LaserPoint>, call: FrameCall)
    requires WellFormed(queue) && call.maximum > 0
    ensures var f := FillFrameQueue(queue, transition, call);
            TimeOfFirst(queue, f.filled.out, f.time)
  {
    hide FrameLoop, DropStale;
    var d := Min(call.maximum, |transition|);
    TransitionsAreSilent(transition[..d]);
    if d < call.maximum && queue != [] {
      var live := DropStale(queue, call.estimate);
      WellFormedSuffix(queue, |queue| - |live|);
      LoopCarriesItsTime(live, Transitions(transition[..d]), call);
      assert forall frame: Frame :: frame in live ==> frame in queue;
    }
  }

  lemma {:induction false} LoopCarriesItsTime(queue: seq<Frame>, out: seq<Emit>, call: FrameCall)
    requires WellFormed(queue) && |out| < call.maximum && Silent(out)
    ensures var f := FrameLoop(queue, out, call);
            TimeOfFirst(queue, f.filled.out, f.time)
    decreases Exhausted(queue)
  {
    hide FrameLoop, Bridge;
    UnfoldFrameLoop(queue, out, call);
    var t := FrameLoopTurn(queue, out, call);
    if t.Continue? {
      LoopCarriesItsTime(t.queue, t.out, call);
      var f := FrameLoop(t.queue, t.out, call);
      if f.filled.out != [] && f.filled.out[0].Content? {
        var frame :| frame in t.queue && frame.id == f.filled.out[0].id && frame.time == f.time;
        assert frame in queue || (frame.id == queue[0].id && frame.time == queue[0].time);
      }
    } else if queue != [] && queue[0].nextPoint < |queue[0].points| {
      assert queue[0] in queue;
    }
  }
}
