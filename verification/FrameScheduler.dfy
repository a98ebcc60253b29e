/** The frame queue of src/core/FrameScheduler.cpp.

Enqueued frames become an endless point stream (`FillPoints`) or size-capped frames (`FillFrame`),
with replay, stale skipping, hold expiry, chunking of oversized frames, and dark transitions that may
spill from one call into the next. The functions say what one call does to the queue; the class does
it, statement by statement. Frames are owned by the queue alone, so they are held by value.

Every emitted point carries its origin: which frame and which index, or that it is a transition or
a blank. `SamplesOf` forgets the origin, and what remains is the output buffer. */
module FrameScheduler {
  import opened Arithmetic
  import opened LaserPoints

  /** `id` numbers the frames in the order in which they were accepted. */
  datatype Frame = Frame(id: nat, points: seq<LaserPoint>, time: Time,
                         playCount: nat, nextPoint: nat, firstPlayTime: Time)

  datatype Emit =
    | Content(id: nat, index: nat, sample: LaserPoint)
    | Transition(sample: LaserPoint)
    | Blank(sample: LaserPoint)

  function SamplesOf(out: seq<Emit>): (s: seq<LaserPoint>)
    ensures |s| == |out|
    ensures forall i :: 0 <= i < |out| ==> s[i] == out[i].sample
  {
    seq(|out|, i requires 0 <= i < |out| => out[i].sample)
  }

  datatype PointRequest = PointRequest(minimum: nat, maximum: nat, renderTime: Time)

  datatype FrameRequest = FrameRequest(maximum: nat, blankCount: nat, renderTime: Time,
                                       advanceWhenAvailable: bool, repeatWhenIdle: bool)

  /** The n-th reading of the steady clock during a call. */
  type Clock = nat -> Time

  function Shortfall(minimum: nat, have: nat): nat { if minimum > have then minimum - have else 0 }

  // ----- time -----

  predicate Due(frame: Frame, estimate: Time) { frame.time == 0 || frame.time <= estimate }

  function Estimate(renderTime: Time, clock: Clock): Time
  {
    if renderTime == 0 then clock(0) else renderTime
  }

  /** Play time of `count` points, in whole nanoseconds. */
  function PlayTime(count: nat, rate: nat): nat
  {
    if rate == 0 then 0 else count * 1_000_000_000 / rate
  }

  // ----- dark points -----

  function Blanks(count: nat): (out: seq<Emit>)
    ensures |out| == count
    ensures forall i :: 0 <= i < count ==> out[i] == Blank(BLANK_POINT)
  {
    seq(count, i => Blank(BLANK_POINT))
  }

  function Transitions(points: seq<LaserPoint>): (out: seq<Emit>)
    ensures |out| == |points|
    ensures forall i :: 0 <= i < |points| ==> out[i] == Transition(points[i])
  {
    seq(|points|, i requires 0 <= i < |points| => Transition(points[i]))
  }

  /** Farther apart than 0.2, compared through squares. */
  predicate FarApart(from: LaserPoint, to: LaserPoint) { SquaredDistance(from, to) > 0.04 }

  /** Twice the larger of 2 and the whole part of 20 times the distance. */
  function TransitionCount(from: LaserPoint, to: LaserPoint): (n: nat)
    ensures n >= 4
  {
    var d2 := SquaredDistance(from, to);
    assert d2 >= 0.0 by {
      SquareIsNotNegative(to.x - from.x);
      SquareIsNotNegative(to.y - from.y);
    }
    2 * Max(2, FloorSqrt(400.0 * d2))
  }

  lemma SquareIsNotNegative(a: real)
    ensures a * a >= 0.0
  {
  }

  /** The dark points that join `from` to `to`; none when they are close. */
  function Bridge(from: LaserPoint, to: LaserPoint): (s: seq<LaserPoint>)
    ensures FarApart(from, to) ==> |s| >= 4
    ensures forall i :: 0 <= i < |s| ==> Dark(s[i])
  {
    if !FarApart(from, to) then []
    else
      var count := TransitionCount(from, to);
      seq(count, i requires 0 <= i < count => EasedBlank(from, to, i, count))
  }

  // ----- queue steps shared by both fills -----

  /** Skips front frames that were never played when their successor is due. */
  function DropStale(queue: seq<Frame>, estimate: Time): (q: seq<Frame>)
    ensures |q| <= |queue| && q == queue[|queue| - |q|..]
    ensures queue != [] ==> q != []
    decreases |queue|
  {
    if |queue| > 1 && queue[0].playCount == 0 && Due(queue[1], estimate)
    then DropStale(queue[1..], estimate)
    else queue
  }

  /** `count` content points of a frame from its cursor on. */
  function Chunk(frame: Frame, count: nat): (out: seq<Emit>)
    requires frame.nextPoint + count <= |frame.points|
    ensures |out| == count
  {
    seq(count, i requires 0 <= i < count =>
      Content(frame.id, frame.nextPoint + i, frame.points[frame.nextPoint + i]))
  }

  function Last<T>(s: seq<T>): T
    requires s != []
  {
    s[|s| - 1]
  }

  /** Frames are never empty and cursors stay inside them; only the front frame has been touched. */
  ghost predicate WellFormed(queue: seq<Frame>)
  {
    && (forall i :: 0 <= i < |queue| ==>
          queue[i].points != [] && queue[i].nextPoint <= |queue[i].points|)
    && (forall i :: 1 <= i < |queue| ==> queue[i].nextPoint == 0 && queue[i].playCount == 0)
  }

  lemma WellFormedSuffix(queue: seq<Frame>, k: nat)
    requires WellFormed(queue) && k <= |queue|
    ensures WellFormed(queue[k..])
  {
  }

  datatype Filled = Filled(queue: seq<Frame>, transition: seq<LaserPoint>, out: seq<Emit>)

  /** One turn of a fill loop either finishes the call or goes round again. */
  datatype Turn = Done(result: Filled) | Again(queue: seq<Frame>, out: seq<Emit>)

  /** Queues the bridge towards the front of `queue`, and emits as much of it as fits. */
  function Cross(queue: seq<Frame>, out: seq<Emit>, maximum: nat, bridge: seq<LaserPoint>): Turn
    requires |out| <= maximum
  {
    var n := Min(maximum - |out|, |bridge|);
    var out' := out + Transitions(bridge[..n]);
    if bridge != [] && |out'| == maximum then Done(Filled(queue, bridge[n..], out'))
    else Again(queue, out')
  }

  // ----- fillPoints -----

  datatype PointCall = PointCall(minimum: nat, maximum: nat, estimate: Time, rate: nat, hold: Time,
                                 clock: Clock)

  function Started(frame: Frame, now: Time): Frame
  {
    if frame.playCount == 0 then frame.(firstPlayTime := now, playCount := 1) else frame
  }

  /** One turn of the `while (true)` loop of fillPoints; turn k reads the clock at 2k+1 and 2k+2. */
  function PointTurn(queue: seq<Frame>, out: seq<Emit>, k: nat, call: PointCall): Turn
    requires WellFormed(queue) && queue != [] && |out| < call.maximum
  {
    var front := Started(queue[0], call.clock(2 * k + 1));
    var toAdd := Min(|front.points| - front.nextPoint, call.maximum - |out|);
    var out1 := out + Chunk(front, toAdd);
    var played := front.(nextPoint := front.nextPoint + toAdd);
    var queue1 := [played] + queue[1..];
    if |out1| >= call.minimum && played.nextPoint >= |played.points| then
      Done(Filled(queue1, [], out1))
    else if |out1| == call.maximum then
      Done(Filled(queue1, [], out1))
    else if |queue| > 1 && Due(queue[1], call.estimate + PlayTime(|out1|, call.rate)) then
      Cross(queue[1..], out1, call.maximum, Bridge(Last(played.points), queue[1].points[0]))
    else if call.hold > 0 && call.clock(2 * k + 2) - played.firstPlayTime >= call.hold then
      Done(Filled(queue[1..], [],
                  out1 + Blanks(Shortfall(call.minimum, |out1|))))
    else
      var again := played.(nextPoint := 0, playCount := played.playCount + 1);
      Cross([again] + queue[1..], out1, call.maximum, Bridge(Last(played.points), played.points[0]))
  }

  predicate Exhausted(queue: seq<Frame>) { queue != [] && queue[0].nextPoint >= |queue[0].points| }

  lemma PointTurnGoesOn(queue: seq<Frame>, out: seq<Emit>, k: nat, call: PointCall)
    requires WellFormed(queue) && queue != [] && |out| < call.maximum
    requires PointTurn(queue, out, k, call).Again?
    ensures var t := PointTurn(queue, out, k, call);
            && WellFormed(t.queue) && t.queue != [] && !Exhausted(t.queue)
            && |out| <= |t.out| < call.maximum
            && (!Exhausted(queue) ==> |out| < |t.out|)
  {
    WellFormedSuffix(queue, 1);
  }

  lemma PointTurnStops(queue: seq<Frame>, out: seq<Emit>, k: nat, call: PointCall)
    requires WellFormed(queue) && queue != [] && |out| < call.maximum
    requires PointTurn(queue, out, k, call).Done?
    ensures WellFormed(PointTurn(queue, out, k, call).result.queue)
  {
    WellFormedSuffix(queue, 1);
  }

  function PointLoop(queue: seq<Frame>, out: seq<Emit>, k: nat, call: PointCall): (f: Filled)
    requires WellFormed(queue) && queue != [] && |out| < call.maximum
    ensures WellFormed(f.queue)
    decreases call.maximum - |out|, Exhausted(queue)
  {
    var turn := PointTurn(queue, out, k, call);
    if turn.Done? then
      PointTurnStops(queue, out, k, call);
      turn.result
    else
      PointTurnGoesOn(queue, out, k, call);
      PointLoop(turn.queue, turn.out, k + 1, call)
  }

  /** Everything after the pending frames joined the queue; `call.maximum` is positive. */
  function FillPointsQueue(queue: seq<Frame>, transition: seq<LaserPoint>, call: PointCall): (f: Filled)
    requires WellFormed(queue) && call.maximum > 0
    ensures WellFormed(f.queue)
  {
    var n := Min(call.maximum, |transition|);
    var out := Transitions(transition[..n]);
    if |out| == call.maximum then Filled(queue, transition[n..], out)
    else if queue == [] then Filled(queue, [], out + Blanks(call.minimum))
    else
      var live := DropStale(queue, call.estimate);
      WellFormedSuffix(queue, |queue| - |live|);
      if live[0].playCount == 0 && !Due(live[0], call.estimate)
      then Filled(live, [], out + Blanks(call.minimum))
      else PointLoop(live, out, 0, call)
  }

  // ----- fillFrame -----

  datatype FrameCall = FrameCall(maximum: nat, blankCount: nat, estimate: Time,
                                 advance: bool, repeat: bool, hold: Time, clock: Clock)

  /** A submission: its points and the time stamped on it. */
  datatype Submission = Submission(filled: Filled, time: Time)

  datatype FrameTurn = Finish(result: Submission) | Continue(queue: seq<Frame>, out: seq<Emit>)

  function BlankSubmission(queue: seq<Frame>, call: FrameCall): Submission
  {
    Submission(Filled(queue, [], Blanks(Min(call.blankCount, call.maximum))), 0)
  }

  /** One turn of the `while (true)` loop of fillFrame. A call starts a frame in at most one turn,
      and checks the hold time in at most one, so two clock readings are enough: 1 and 2. */
  function FrameLoopTurn(queue: seq<Frame>, out: seq<Emit>, call: FrameCall): FrameTurn
    requires WellFormed(queue) && |out| < call.maximum
  {
    if queue == [] then Finish(BlankSubmission(queue, call))
    else
      var front := queue[0];
      if front.playCount == 0 && front.nextPoint == 0 && !call.advance && !Due(front, call.estimate)
      then Finish(BlankSubmission(queue, call))
      else if front.nextPoint >= |front.points| then
        if |queue| > 1 && (call.advance || Due(queue[1], call.estimate)) then
          match Cross(queue[1..], out, call.maximum, Bridge(Last(front.points), queue[1].points[0]))
          case Done(filled) => Finish(Submission(filled, 0))
          case Again(queue', out') => Continue(queue', out')
        else if front.playCount > 0 && call.hold > 0 && call.clock(2) - front.firstPlayTime >= call.hold
        then Finish(BlankSubmission(queue[1..], call))
        else if !call.repeat then Finish(Submission(Filled(queue, [], out), 0))
        else Continue([front.(nextPoint := 0)] + queue[1..], out)
      else
        var counted :=
          if front.nextPoint == 0 then
            front.(firstPlayTime := if front.playCount == 0 then call.clock(1) else front.firstPlayTime,
                   playCount := front.playCount + 1)
          else front;
        var toCopy := Min(|front.points| - front.nextPoint, call.maximum);
        Finish(Submission(
          Filled([counted.(nextPoint := front.nextPoint + toCopy)] + queue[1..], [],
                 out + Chunk(front, toCopy)),
          if out == [] then front.time else 0))
  }

  lemma FrameTurnGoesOn(queue: seq<Frame>, out: seq<Emit>, call: FrameCall)
    requires WellFormed(queue) && |out| < call.maximum
    requires FrameLoopTurn(queue, out, call).Continue?
    ensures var t := FrameLoopTurn(queue, out, call);
            && WellFormed(t.queue) && t.queue != [] && !Exhausted(t.queue) && Exhausted(queue)
            && |out| <= |t.out| < call.maximum
  {
    WellFormedSuffix(queue, 1);
  }

  lemma FrameTurnStops(queue: seq<Frame>, out: seq<Emit>, call: FrameCall)
    requires WellFormed(queue) && |out| < call.maximum
    requires FrameLoopTurn(queue, out, call).Finish?
    ensures WellFormed(FrameLoopTurn(queue, out, call).result.filled.queue)
  {
    if queue != [] {
      WellFormedSuffix(queue, 1);
    }
  }

  function FrameLoop(queue: seq<Frame>, out: seq<Emit>, call: FrameCall): (f: Submission)
    requires WellFormed(queue) && |out| < call.maximum
    ensures WellFormed(f.filled.queue)
    decreases Exhausted(queue)
  {
    var turn := FrameLoopTurn(queue, out, call);
    if turn.Finish? then
      FrameTurnStops(queue, out, call);
      turn.result
    else
      FrameTurnGoesOn(queue, out, call);
      FrameLoop(turn.queue, turn.out, call)
  }

  function FillFrameQueue(queue: seq<Frame>, transition: seq<LaserPoint>, call: FrameCall): (f: Submission)
    requires WellFormed(queue) && call.maximum > 0
    ensures WellFormed(f.filled.queue)
  {
    var n := Min(call.maximum, |transition|);
    var out := Transitions(transition[..n]);
    if |out| == call.maximum then Submission(Filled(queue, transition[n..], out), 0)
    else if queue == [] then BlankSubmission(queue, call)
    else
      var live := DropStale(queue, call.estimate);
      WellFormedSuffix(queue, |queue| - |live|);
      FrameLoop(live, out, call)
  }

  // ----- the scheduler's state -----

  datatype Sched = Sched(pendingFrames: seq<Frame>, frameQueue: seq<Frame>,
                         pendingTransition: seq<LaserPoint>, nominal: nat, accepted: nat)
  {
    function All(): seq<Frame> { frameQueue + pendingFrames }
  }

  const EMPTY := Sched([], [], [], 1, 0)

  function PulledPoints(s: Sched, request: PointRequest, rate: nat, hold: Time, clock: Clock)
    : (r: (Sched, seq<Emit>))
    requires WellFormed(s.All())
    ensures WellFormed(r.0.All())
  {
    if request.maximum == 0 then
      assert s.All() + [] == s.All();
      (s.(pendingFrames := [], frameQueue := s.All()), [])
    else
      var call := PointCall(request.minimum, request.maximum,
                            Estimate(request.renderTime, clock), rate, hold, clock);
      var f := FillPointsQueue(s.All(), s.pendingTransition, call);
      assert f.queue + [] == f.queue;
      (s.(pendingFrames := [], frameQueue := f.queue, pendingTransition := f.transition), f.out)
  }

  /** The third component is the time stamped on the submission. */
  function PulledFrame(s: Sched, request: FrameRequest, hold: Time, clock: Clock)
    : (r: (Sched, seq<Emit>, Time))
    requires WellFormed(s.All())
    ensures WellFormed(r.0.All())
  {
    if request.maximum == 0 then
      assert s.All() + [] == s.All();
      (s.(pendingFrames := [], frameQueue := s.All()), [], 0)
    else
      var call := FrameCall(request.maximum, request.blankCount,
                            Estimate(request.renderTime, clock),
                            request.advanceWhenAvailable, request.repeatWhenIdle, hold, clock);
      var f := FillFrameQueue(s.All(), s.pendingTransition, call);
      assert f.filled.queue + [] == f.filled.queue;
      (s.(pendingFrames := [], frameQueue := f.filled.queue,
          pendingTransition := f.filled.transition),
       f.filled.out, f.time)
  }

  function Enqueue(s: Sched, points: seq<LaserPoint>, time: Time): (r: Sched)
    ensures WellFormed(s.All()) ==> WellFormed(r.All())
  {
    if points == [] then s
    else
      assert s.frameQueue + (s.pendingFrames + [Frame(s.accepted, points, time, 0, 0, 0)])
          == s.All() + [Frame(s.accepted, points, time, 0, 0, 0)];
      s.(pendingFrames := s.pendingFrames + [Frame(s.accepted, points, time, 0, 0, 0)],
         nominal := Max(|points|, 1),
         accepted := s.accepted + 1)
  }

  /** Backlog charged for one frame: what is left of it, but at least the floor; nothing when spent. */
  function FrameCost(frame: Frame, minimumPerFrame: nat): nat
  {
    var remaining := |frame.points| - Min(frame.nextPoint, |frame.points|);
    if remaining > 0 then Max(remaining, Max(minimumPerFrame, 1)) else 0
  }

  function QueueCost(frames: seq<Frame>, minimumPerFrame: nat): nat
  {
    if frames == [] then 0
    else FrameCost(frames[0], minimumPerFrame) + QueueCost(frames[1..], minimumPerFrame)
  }

  function TryEnqueue(s: Sched, points: seq<LaserPoint>, time: Time, budget: nat, minimumPerFrame: nat)
    : (r: Sched)
    ensures WellFormed(s.All()) ==> WellFormed(r.All())
  {
    if points != [] && QueueCost(s.All(), minimumPerFrame) <= budget
    then Enqueue(s, points, time)
    else s
  }

  // ----- the class -----

  lemma SamplesOfSum(a: seq<Emit>, b: seq<Emit>)
    ensures SamplesOf(a + b) == SamplesOf(a) + SamplesOf(b)
  {
  }

  lemma QueueCostOfNothing(minimumPerFrame: nat)
    ensures QueueCost([], minimumPerFrame) == 0
  {
  }

  lemma {:induction false} QueueCostSnoc(frames: seq<Frame>, frame: Frame, minimumPerFrame: nat)
    ensures QueueCost(frames + [frame], minimumPerFrame)
         == QueueCost(frames, minimumPerFrame) + FrameCost(frame, minimumPerFrame)
    decreases |frames|
  {
    hide FrameCost;
    if frames == [] {
      assert frames + [frame] == [frame];
    } else {
      QueueCostSnoc(frames[1..], frame, minimumPerFrame);
      assert (frames + [frame])[1..] == frames[1..] + [frame];
    }
  }

  lemma {:induction false} QueueCostSum(a: seq<Frame>, b: seq<Frame>, minimumPerFrame: nat)
    ensures QueueCost(a + b, minimumPerFrame)
         == QueueCost(a, minimumPerFrame) + QueueCost(b, minimumPerFrame)
    decreases |a|
  {
    hide FrameCost;
    if a == [] {
      assert a + b == b;
    } else {
      QueueCostSum(a[1..], b, minimumPerFrame);
      assert (a + b)[1..] == a[1..] + b;
    }
  }

  lemma WellFormedSnoc(queue: seq<Frame>, frame: Frame)
    requires WellFormed(queue)
    requires frame.points != [] && frame.nextPoint == 0 && frame.playCount == 0
    ensures WellFormed(queue + [frame])
  {
  }

  lemma SamplesOfChunk(out: seq<Emit>, frame: Frame, count: nat)
    requires frame.nextPoint + count <= |frame.points|
    ensures SamplesOf(out + Chunk(frame, count))
         == SamplesOf(out) + frame.points[frame.nextPoint..frame.nextPoint + count]
  {
    SamplesOfSum(out, Chunk(frame, count));
  }

  lemma SamplesOfTransitions(points: seq<LaserPoint>)
    ensures SamplesOf(Transitions(points)) == points
  {
  }

  lemma UnfoldFrameLoop(queue: seq<Frame>, out: seq<Emit>, call: FrameCall)
    requires WellFormed(queue) && |out| < call.maximum
    ensures var t := FrameLoopTurn(queue, out, call);
            if t.Finish? then FrameLoop(queue, out, call) == t.result
            else
              && WellFormed(t.queue) && t.queue != [] && !Exhausted(t.queue) && Exhausted(queue)
              && |out| <= |t.out| < call.maximum
              && FrameLoop(queue, out, call) == FrameLoop(t.queue, t.out, call)
  {
    hide FrameLoopTurn;
    if FrameLoopTurn(queue, out, call).Continue? {
      FrameTurnGoesOn(queue, out, call);
    }
  }

  lemma CloseNeedsNoBridge(from: LaserPoint, to: LaserPoint)
    requires !FarApart(from, to)
    ensures Bridge(from, to) == []
  {
  }

  class Scheduler {
    var pendingFrames: seq<Frame>
    var frameQueue: seq<Frame>
    var pendingTransition: seq<LaserPoint>
    var nominal: nat
    var accepted: nat

    ghost function State(): Sched
      reads this
    {
      Sched(pendingFrames, frameQueue, pendingTransition, nominal, accepted)
    }

    ghost predicate Valid()
      reads this
    {
      WellFormed(State().All())
    }

    constructor ()
      ensures Valid() && State() == EMPTY
    {
      pendingFrames, frameQueue, pendingTransition, nominal, accepted := [], [], [], 1, 0;
    }

    method EnqueueFrame(points: seq<LaserPoint>, time: Time) returns (ok: bool)
      requires Valid()
      modifies this
      ensures Valid() && State() == Enqueue(old(State()), points, time)
      ensures ok == (points != [])
    {
      if points == [] {
        return false;
      }
      nominal := Max(|points|, 1);
      pendingFrames := pendingFrames + [Frame(accepted, points, time, 0, 0, 0)];
      accepted := accepted + 1;
      WellFormedSnoc(old(State().All()), Frame(old(accepted), points, time, 0, 0, 0));
      assert State().All() == old(State().All()) + [Frame(old(accepted), points, time, 0, 0, 0)];
      return true;
    }

    /** `lockFree` is the outcome of the attempt to take the lock. */
    method TryEnqueueFrameIfReady(points: seq<LaserPoint>, time: Time, budget: nat,
                                  minimumPerFrame: nat, lockFree: bool) returns (ok: bool)
      requires Valid()
      modifies this
      ensures Valid()
      ensures State() == if lockFree then TryEnqueue(old(State()), points, time, budget, minimumPerFrame)
                         else old(State())
      ensures ok <==> points != [] && lockFree && QueueCost(old(State().All()), minimumPerFrame) <= budget
    {
      if points == [] {
        return false;
      }
      if !lockFree {
        return false;
      }
      var queued := QueuedPointCount(minimumPerFrame);
      if queued > budget {
        return false;
      }
      ok := EnqueueFrame(points, time);
    }

    method IsReadyForNewFrame(budget: nat, minimumPerFrame: nat) returns (ready: bool)
      ensures ready <==> QueueCost(State().All(), minimumPerFrame) <= budget
    {
      var queued := QueuedPointCount(minimumPerFrame);
      ready := queued <= budget;
    }

    method Reset()
      modifies this
      ensures Valid() && State() == EMPTY.(accepted := old(accepted))
    {
      pendingFrames, frameQueue, pendingTransition, nominal := [], [], [], 1;
    }

    method QueuedPointCount(minimumPerFrame: nat) returns (queuedPoints: nat)
      ensures queuedPoints == QueueCost(State().All(), minimumPerFrame)
    {
      hide FrameCost, QueueCost;
      queuedPoints := 0;
      assert QueueCost([], minimumPerFrame) == 0 by { QueueCostOfNothing(minimumPerFrame); }
      for i := 0 to |pendingFrames|
        invariant queuedPoints == QueueCost(pendingFrames[..i], minimumPerFrame)
      {
        QueueCostSnoc(pendingFrames[..i], pendingFrames[i], minimumPerFrame);
        assert pendingFrames[..i + 1] == pendingFrames[..i] + [pendingFrames[i]];
        queuedPoints := queuedPoints + FrameCost(pendingFrames[i], minimumPerFrame);
      }
      assert pendingFrames[..|pendingFrames|] == pendingFrames;
      for i := 0 to |frameQueue|
        invariant queuedPoints == QueueCost(pendingFrames, minimumPerFrame)
                                + QueueCost(frameQueue[..i], minimumPerFrame)
      {
        QueueCostSnoc(frameQueue[..i], frameQueue[i], minimumPerFrame);
        assert frameQueue[..i + 1] == frameQueue[..i] + [frameQueue[i]];
        queuedPoints := queuedPoints + FrameCost(frameQueue[i], minimumPerFrame);
      }
      assert frameQueue[..|frameQueue|] == frameQueue;
      QueueCostSum(frameQueue, pendingFrames, minimumPerFrame);
    }

    method DrainPendingFrames()
      modifies this`pendingFrames, this`frameQueue
      ensures pendingFrames == [] && frameQueue == old(State().All())
    {
      while pendingFrames != []
        invariant frameQueue + pendingFrames == old(frameQueue + pendingFrames)
        decreases |pendingFrames|
      {
        frameQueue := frameQueue + [pendingFrames[0]];
        pendingFrames := pendingFrames[1..];
      }
    }

    method GenerateTransitionPoints(from: LaserPoint, to: LaserPoint)
      requires FarApart(from, to)
      modifies this`pendingTransition
      ensures pendingTransition == Bridge(from, to)
    {
      var totalCount := TransitionCount(from, to);
      pendingTransition := [];
      for i := 0 to totalCount
        invariant pendingTransition == Bridge(from, to)[..i]
      {
        pendingTransition := pendingTransition + [EasedBlank(from, to, i, totalCount)];
      }
    }

    /** Moves as much of the pending transition as fits to the end of the buffer. */
    method DrainPendingTransition(buffer: seq<LaserPoint>, maximum: nat) returns (extended: seq<LaserPoint>)
      requires |buffer| <= maximum
      modifies this`pendingTransition
      ensures var n := Min(maximum - |buffer|, |old(pendingTransition)|);
              && extended == buffer + old(pendingTransition)[..n]
              && pendingTransition == old(pendingTransition)[n..]
    {
      if pendingTransition == [] {
        return buffer;
      }
      var spaceLeft := maximum - |buffer|;
      var toDrain := Min(spaceLeft, |pendingTransition|);
      extended := buffer + pendingTransition[..toDrain];
      pendingTransition := pendingTransition[toDrain..];
    }

    method SkipStale(estimate: Time)
      modifies this`frameQueue
      ensures frameQueue == DropStale(old(frameQueue), estimate)
    {
      while |frameQueue| > 1
        invariant DropStale(frameQueue, estimate) == DropStale(old(frameQueue), estimate)
        decreases |frameQueue|
      {
        if frameQueue[0].playCount != 0 {
          break;
        }
        if !Due(frameQueue[1], estimate) {
          break;
        }
        frameQueue := frameQueue[1..];
      }
    }

    method FillPoints(request: PointRequest, rate: nat, hold: Time, clock: Clock)
      returns (outputBuffer: seq<LaserPoint>, ghost out: seq<Emit>)
      requires Valid()
      modifies this
      ensures (State(), out) == PulledPoints(old(State()), request, rate, hold, clock)
      ensures Valid()
      ensures outputBuffer == SamplesOf(out)
    {
      hide SamplesOf, PointLoop, DropStale, WellFormed, Due, Blanks, Transitions;
      DrainPendingFrames();
      outputBuffer, out := [], [];
      SamplesOfTransitions([]);
      assert Transitions([]) == [];
      if request.maximum == 0 {
        return;
      }
      var minPoints, maxPoints := request.minimum, request.maximum;
      ghost var n := Min(maxPoints, |pendingTransition|);
      SamplesOfTransitions(pendingTransition[..n]);
      out := Transitions(pendingTransition[..n]);
      outputBuffer := DrainPendingTransition(outputBuffer, maxPoints);
      if |outputBuffer| == maxPoints {
        return;
      }
      var estimate := Estimate(request.renderTime, clock);
      var call := PointCall(minPoints, maxPoints, estimate, rate, hold, clock);
      if frameQueue == [] {
        SamplesOfSum(out, Blanks(minPoints));
        outputBuffer := outputBuffer + SamplesOf(Blanks(minPoints));
        out := out + Blanks(minPoints);
        return;
      }
      SkipStale(estimate);
      WellFormedSuffix(old(State().All()), |old(State().All())| - |frameQueue|);
      if frameQueue[0].playCount == 0 && !Due(frameQueue[0], estimate) {
        SamplesOfSum(out, Blanks(minPoints));
        outputBuffer := outputBuffer + SamplesOf(Blanks(minPoints));
        out := out + Blanks(minPoints);
        return;
      }
      outputBuffer, out := PlayPoints(outputBuffer, out, call);
    }

    /** Queues the dark move from `lastPoint` to the front frame's next point when they are far
        apart, and emits what fits of it; `full` when that fills the buffer. */
    method CrossTo(lastPoint: LaserPoint, buffer: seq<LaserPoint>, ghost out0: seq<Emit>, maximum: nat)
      returns (outputBuffer: seq<LaserPoint>, ghost out: seq<Emit>, full: bool)
      requires frameQueue != [] && frameQueue[0].nextPoint < |frameQueue[0].points|
      requires |out0| <= maximum && buffer == SamplesOf(out0) && pendingTransition == []
      modifies this`pendingTransition
      ensures var bridge := Bridge(lastPoint, frameQueue[0].points[frameQueue[0].nextPoint]);
              match Cross(frameQueue, out0, maximum, bridge)
              case Done(f) => full && f == Filled(frameQueue, pendingTransition, out)
              case Again(q, o) => !full && q == frameQueue && o == out && pendingTransition == []
      ensures outputBuffer == SamplesOf(out)
    {
      var firstPoint := frameQueue[0].points[frameQueue[0].nextPoint];
      ghost var bridge := Bridge(lastPoint, firstPoint);
      ghost var n := Min(maximum - |out0|, |bridge|);
      out := out0 + Transitions(bridge[..n]);
      SamplesOfSum(out0, Transitions(bridge[..n]));
      outputBuffer, full := buffer, false;
      hide Bridge;
      if FarApart(lastPoint, firstPoint) {
        GenerateTransitionPoints(lastPoint, firstPoint);
        outputBuffer := DrainPendingTransition(buffer, maximum);
        full := |outputBuffer| == maximum;
      } else {
        CloseNeedsNoBridge(lastPoint, firstPoint);
      }
    }

    /** The `while (true)` loop of fillPoints. */
    method PlayPoints(buffer: seq<LaserPoint>, ghost out0: seq<Emit>, call: PointCall)
      returns (outputBuffer: seq<LaserPoint>, ghost out: seq<Emit>)
      requires WellFormed(frameQueue) && frameQueue != [] && |out0| < call.maximum
      requires buffer == SamplesOf(out0) && pendingTransition == []
      modifies this`frameQueue, this`pendingTransition
      ensures Filled(frameQueue, pendingTransition, out) == PointLoop(old(frameQueue), out0, 0, call)
      ensures outputBuffer == SamplesOf(out)
    {
      hide PointTurn, SamplesOf, WellFormed;
      outputBuffer, out := buffer, out0;
      var k: nat := 0;
      var finished := false;
      while !finished
        invariant outputBuffer == SamplesOf(out)
        invariant !finished ==> WellFormed(frameQueue) && frameQueue != [] && |out| < call.maximum
        invariant !finished ==> pendingTransition == []
        invariant PointLoop(old(frameQueue), out0, 0, call)
               == if finished then Filled(frameQueue, pendingTransition, out)
                  else PointLoop(frameQueue, out, k, call)
        decreases !finished, call.maximum - |out|, Exhausted(frameQueue)
      {
        if PointTurn(frameQueue, out, k, call).Again? {
          PointTurnGoesOn(frameQueue, out, k, call);
        }
        outputBuffer, out, finished := PlayTurn(outputBuffer, out, k, call);
        k := k + 1;
      }
    }

    method PlayTurn(buffer: seq<LaserPoint>, ghost out0: seq<Emit>, k: nat, call: PointCall)
      returns (outputBuffer: seq<LaserPoint>, ghost out: seq<Emit>, finished: bool)
      requires WellFormed(frameQueue) && frameQueue != [] && |out0| < call.maximum
      requires buffer == SamplesOf(out0) && pendingTransition == []
      modifies this`frameQueue, this`pendingTransition
      ensures match PointTurn(old(frameQueue), out0, k, call)
              case Done(f) => finished && f == Filled(frameQueue, pendingTransition, out)
              case Again(q, o) => !finished && q == frameQueue && o == out && pendingTransition == []
      ensures outputBuffer == SamplesOf(out)
    {
      hide Bridge, Cross, SamplesOf, PlayTime, Due, Blanks, Chunk;
      var currentFrame := frameQueue[0];
      if currentFrame.playCount == 0 {
        currentFrame := currentFrame.(firstPlayTime := call.clock(2 * k + 1));
        currentFrame := currentFrame.(playCount := currentFrame.playCount + 1);
      }
      var available := |currentFrame.points| - currentFrame.nextPoint;
      var spaceLeft := call.maximum - |buffer|;
      var toAdd := Min(available, spaceLeft);
      SamplesOfChunk(out0, currentFrame, toAdd);
      outputBuffer := buffer
        + currentFrame.points[currentFrame.nextPoint..currentFrame.nextPoint + toAdd];
      out := out0 + Chunk(currentFrame, toAdd);
      currentFrame := currentFrame.(nextPoint := currentFrame.nextPoint + toAdd);
      frameQueue := [currentFrame] + frameQueue[1..];
      if |outputBuffer| >= call.minimum && currentFrame.nextPoint >= |currentFrame.points| {
        finished := true;
        return;
      }
      if |outputBuffer| == call.maximum {
        finished := true;
        return;
      }
      var lastPoint := Last(currentFrame.points);
      if |frameQueue| > 1 && Due(frameQueue[1], call.estimate + PlayTime(|outputBuffer|, call.rate)) {
        frameQueue := frameQueue[1..];
        assert frameQueue == old(frameQueue)[1..];
      } else {
        if call.hold > 0 {
          var elapsed := call.clock(2 * k + 2) - currentFrame.firstPlayTime;
          if elapsed >= call.hold {
            frameQueue := frameQueue[1..];
            var needed := Shortfall(call.minimum, |outputBuffer|);
            SamplesOfSum(out, Blanks(needed));
            outputBuffer := outputBuffer + SamplesOf(Blanks(needed));
            out := out + Blanks(needed);
            assert frameQueue == old(frameQueue)[1..];
            finished := true;
            return;
          }
        }
        currentFrame := currentFrame.(nextPoint := 0, playCount := currentFrame.playCount + 1);
        frameQueue := [currentFrame] + frameQueue[1..];
        assert frameQueue == [currentFrame] + old(frameQueue)[1..];
      }
      outputBuffer, out, finished := CrossTo(lastPoint, outputBuffer, out, call.maximum);
    }

    method FillFrame(request: FrameRequest, hold: Time, clock: Clock)
      returns (points: seq<LaserPoint>, time: Time, ghost out: seq<Emit>)
      requires Valid()
      modifies this
      ensures (State(), out, time) == PulledFrame(old(State()), request, hold, clock)
      ensures Valid()
      ensures points == SamplesOf(out)
    {
      hide SamplesOf, FrameLoop, DropStale, WellFormed, Due;
      DrainPendingFrames();
      points, time, out := [], 0, [];
      SamplesOfTransitions([]);
      assert Transitions([]) == [];
      var call := FrameCall(request.maximum, request.blankCount, Estimate(request.renderTime, clock),
                            request.advanceWhenAvailable, request.repeatWhenIdle, hold, clock);
      if request.maximum == 0 {
        return;
      }
      ghost var n := Min(call.maximum, |pendingTransition|);
      SamplesOfTransitions(pendingTransition[..n]);
      out := Transitions(pendingTransition[..n]);
      if pendingTransition != [] {
        points := DrainPendingTransition(points, call.maximum);
        if |points| == call.maximum {
          return;
        }
      }
      if frameQueue == [] {
        points, time, out := LoadBlankFrame(call);
        return;
      }
      SkipStale(call.estimate);
      WellFormedSuffix(old(State().All()), |old(State().All())| - |frameQueue|);
      points, time, out := PlayFrame(points, out, call);
    }

    /** The `while (true)` loop of fillFrame. */
    method PlayFrame(buffer: seq<LaserPoint>, ghost out0: seq<Emit>, call: FrameCall)
      returns (points: seq<LaserPoint>, time: Time, ghost out: seq<Emit>)
      requires WellFormed(frameQueue) && |out0| < call.maximum
      requires buffer == SamplesOf(out0) && pendingTransition == []
      modifies this`frameQueue, this`pendingTransition
      ensures Submission(Filled(frameQueue, pendingTransition, out), time)
           == FrameLoop(old(frameQueue), out0, call)
      ensures points == SamplesOf(out)
    {
      hide SamplesOf, FrameLoop, FrameLoopTurn, WellFormed;
      points, time, out := buffer, 0, out0;
      var finished := false;
      while !finished
        invariant points == SamplesOf(out)
        invariant !finished ==> WellFormed(frameQueue) && |out| < call.maximum
        invariant !finished ==> pendingTransition == []
        invariant FrameLoop(old(frameQueue), out0, call)
               == if finished then Submission(Filled(frameQueue, pendingTransition, out), time)
                  else FrameLoop(frameQueue, out, call)
        decreases !finished, Exhausted(frameQueue)
      {
        UnfoldFrameLoop(frameQueue, out, call);
        points, time, out, finished := FrameStep(points, out, call);
      }
    }

    method LoadBlankFrame(call: FrameCall)
      returns (points: seq<LaserPoint>, time: Time, ghost out: seq<Emit>)
      ensures points == SamplesOf(out)
      ensures Submission(Filled(frameQueue, [], out), time) == BlankSubmission(frameQueue, call)
    {
      out := Blanks(Min(call.blankCount, call.maximum));
      return SamplesOf(Blanks(Min(call.blankCount, call.maximum))), 0, out;
    }

    /** One turn of the `while (true)` loop of fillFrame. */
    method FrameStep(buffer: seq<LaserPoint>, ghost out0: seq<Emit>, call: FrameCall)
      returns (points: seq<LaserPoint>, time: Time, ghost out: seq<Emit>, finished: bool)
      requires WellFormed(frameQueue) && |out0| < call.maximum
      requires buffer == SamplesOf(out0) && pendingTransition == []
      modifies this`frameQueue, this`pendingTransition
      ensures match FrameLoopTurn(old(frameQueue), out0, call)
              case Finish(r) =>
                finished && r == Submission(Filled(frameQueue, pendingTransition, out), time)
              case Continue(q, o) =>
                !finished && q == frameQueue && o == out && pendingTransition == [] && time == 0
      ensures points == SamplesOf(out)
    {
      hide Bridge, Cross, SamplesOf, BlankSubmission, Due, Blanks;
      points, time, out, finished := buffer, 0, out0, true;
      if frameQueue == [] {
        points, time, out := LoadBlankFrame(call);
        return;
      }
      var currentFrame := frameQueue[0];
      if currentFrame.playCount == 0 && currentFrame.nextPoint == 0 && !call.advance
         && !Due(currentFrame, call.estimate) {
        points, time, out := LoadBlankFrame(call);
        return;
      }
      if currentFrame.nextPoint >= |currentFrame.points| {
        if |frameQueue| > 1 && (call.advance || Due(frameQueue[1], call.estimate)) {
          var lastPoint := Last(currentFrame.points);
          frameQueue := frameQueue[1..];
          points, out, finished := CrossTo(lastPoint, points, out, call.maximum);
          return;
        }
        if currentFrame.playCount > 0 && call.hold > 0 {
          var elapsed := call.clock(2) - currentFrame.firstPlayTime;
          if elapsed >= call.hold {
            frameQueue := frameQueue[1..];
            points, time, out := LoadBlankFrame(call);
            return;
          }
        }
        if !call.repeat {
          return;
        }
        currentFrame := currentFrame.(nextPoint := 0);
        frameQueue := [currentFrame] + frameQueue[1..];
        finished := false;
        return;
      }
      if currentFrame.nextPoint == 0 {
        if currentFrame.playCount == 0 {
          currentFrame := currentFrame.(firstPlayTime := call.clock(1));
        }
        currentFrame := currentFrame.(playCount := currentFrame.playCount + 1);
      }
      var available := |currentFrame.points| - currentFrame.nextPoint;
      var toCopy := Min(available, call.maximum);
      if points == [] {
        time := currentFrame.time;
      }
      SamplesOfChunk(out, frameQueue[0], toCopy);
      assert Chunk(frameQueue[0], toCopy) == Chunk(currentFrame, toCopy);
      out := out + Chunk(currentFrame, toCopy);
      points := points + currentFrame.points[currentFrame.nextPoint..currentFrame.nextPoint + toCopy];
      currentFrame := currentFrame.(nextPoint := currentFrame.nextPoint + toCopy);
      frameQueue := [currentFrame] + frameQueue[1..];
    }
  }
}
