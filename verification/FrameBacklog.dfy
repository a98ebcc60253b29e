/** Backpressure: how much can be queued when every submission goes through the admission test.

The charge for a frame is what is left of it, at least the floor, and nothing once it is spent; a
replayed frame is charged in full again. */
module FrameBacklog {
  import opened Arithmetic
  import opened FrameScheduler
  import opened FrameTrace
  import opened LaserPoints

  /** What a fill can do to the queue: pop frames from its front, and move the front cursor. */
  ghost predicate Consumed(before: seq<Frame>, after: seq<Frame>)
  {
    && |after| <= |before|
    && (forall i :: 1 <= i < |after| ==> after[i] == before[|before| - |after| + i])
    && (after != [] ==> after[0].points == before[|before| - |after|].points)
  }

  lemma ConsumedTwice(a: seq<Frame>, b: seq<Frame>, c: seq<Frame>)
    requires Consumed(a, b) && Consumed(b, c)
    ensures Consumed(a, c)
  {
    if c != [] && |c| == |b| {
      assert c[0].points == b[0].points == a[|a| - |b|].points;
    } else if c != [] {
      assert c[0].points == b[|b| - |c|].points && b[|b| - |c|] == a[|a| - |c|];
    }
    forall i | 1 <= i < |c|
      ensures c[i] == a[|a| - |c| + i]
    {
      assert c[i] == b[|b| - |c| + i];
    }
  }

  lemma ConsumedSuffix(queue: seq<Frame>, k: nat)
    requires k <= |queue|
    ensures Consumed(queue, queue[k..])
  {
  }

  lemma ConsumedFront(queue: seq<Frame>, front: Frame)
    requires queue != [] && front.points == queue[0].points
    ensures Consumed(queue, [front] + queue[1..])
  {
  }

  lemma PointTurnConsumes(queue: seq<Frame>, out: seq<Emit>, k: nat, call: PointCall)
    requires WellFormed(queue) && queue != [] && |out| < call.maximum
    ensures match PointTurn(queue, out, k, call)
            case Done(f) => Consumed(queue, f.queue)
            case Again(q, _) => Consumed(queue, q)
  {
    hide Bridge, Due, PlayTime, Chunk, Consumed;
    var front := Started(queue[0], call.clock(2 * k + 1));
    var toAdd := Min(|front.points| - front.nextPoint, call.maximum - |out|);
    var played := front.(nextPoint := front.nextPoint + toAdd);
    ConsumedFront(queue, played);
    ConsumedFront(queue, played.(nextPoint := 0, playCount := played.playCount + 1));
    ConsumedSuffix(queue, 1);
  }

  lemma {:induction false} PointLoopConsumes(queue: seq<Frame>, out: seq<Emit>, k: nat, call: PointCall)
    requires WellFormed(queue) && queue != [] && |out| < call.maximum
    ensures Consumed(queue, PointLoop(queue, out, k, call).queue)
    decreases call.maximum - |out|, Exhausted(queue)
  {
    hide PointTurn, WellFormed, Consumed;
    PointTurnConsumes(queue, out, k, call);
    var turn := PointTurn(queue, out, k, call);
    if turn.Again? {
      PointTurnGoesOn(queue, out, k, call);
      PointLoopConsumes(turn.queue, turn.out, k + 1, call);
      ConsumedTwice(queue, turn.queue, PointLoop(turn.queue, turn.out, k + 1, call).queue);
    }
  }

  lemma FrameTurnConsumes(queue: seq<Frame>, out: seq<Emit>, call: FrameCall)
    requires WellFormed(queue) && |out| < call.maximum
    ensures match FrameLoopTurn(queue, out, call)
            case Finish(r) => Consumed(queue, r.filled.queue)
            case Continue(q, _) => Consumed(queue, q)
  {
    hide Bridge, Due, Chunk, Consumed;
    ConsumedSuffix(queue, 0);
    assert queue[0..] == queue;
    if queue != [] {
      var front := queue[0];
      ConsumedSuffix(queue, 1);
      ConsumedFront(queue, front.(nextPoint := 0));
      var t := FrameLoopTurn(queue, out, call);
      if t.Finish? && !Exhausted(queue) && t.result.filled.queue != queue {
        assert t.result.filled.queue[1..] == queue[1..];
        ConsumedFront(queue, t.result.filled.queue[0]);
      }
    }
  }

  lemma {:induction false} FrameLoopConsumes(queue: seq<Frame>, out: seq<Emit>, call: FrameCall)
    requires WellFormed(queue) && |out| < call.maximum
    ensures Consumed(queue, FrameLoop(queue, out, call).filled.queue)
    decreases Exhausted(queue)
  {
    hide FrameLoopTurn, WellFormed, Consumed;
    UnfoldFrameLoop(queue, out, call);
    FrameTurnConsumes(queue, out, call);
    var turn := FrameLoopTurn(queue, out, call);
    if turn.Continue? {
      FrameLoopConsumes(turn.queue, turn.out, call);
      ConsumedTwice(queue, turn.queue, FrameLoop(turn.queue, turn.out, call).filled.queue);
    }
  }

  lemma ConsumesNothing(queue: seq<Frame>)
    ensures Consumed(queue, queue)
  {
    ConsumedSuffix(queue, 0);
    assert queue[0..] == queue;
  }

  lemma FillPointsConsumes(queue: seq<Frame>, transition: seq<LaserPoint>, call: PointCall)
    requires WellFormed(queue) && call.maximum > 0
    ensures Consumed(queue, FillPointsQueue(queue, transition, call).queue)
  {
    hide PointLoop, DropStale, Due, Consumed;
    ConsumesNothing(queue);
    var out := Transitions(transition[..Min(call.maximum, |transition|)]);
    if queue != [] && |out| < call.maximum {
      var live := DropStale(queue, call.estimate);
      WellFormedSuffix(queue, |queue| - |live|);
      ConsumedSuffix(queue, |queue| - |live|);
      PointLoopConsumes(live, out, 0, call);
      ConsumedTwice(queue, live, PointLoop(live, out, 0, call).queue);
    }
  }

  lemma FillFrameConsumes(queue: seq<Frame>, transition: seq<LaserPoint>, call: FrameCall)
    requires WellFormed(queue) && call.maximum > 0
    ensures Consumed(queue, FillFrameQueue(queue, transition, call).filled.queue)
  {
    hide FrameLoop, DropStale, Due, Consumed;
    ConsumesNothing(queue);
    var out := Transitions(transition[..Min(call.maximum, |transition|)]);
    if queue != [] && |out| < call.maximum {
      var live := DropStale(queue, call.estimate);
      WellFormedSuffix(queue, |queue| - |live|);
      ConsumedSuffix(queue, |queue| - |live|);
      FrameLoopConsumes(live, out, call);
      ConsumedTwice(queue, live, FrameLoop(live, out, call).filled.queue);
    }
  }

  lemma PullConsumes(s: Sched, op: Op)
    requires WellFormed(s.All()) && (op.PullPoints? || op.PullFrame?)
    ensures Consumed(s.All(), After(s, op).0.All())
  {
    hide FillPointsQueue, FillFrameQueue, Consumed;
    ConsumesNothing(s.All());
    var r := After(s, op).0;
    assert r.All() == r.frameQueue;
    match op {
      case PullPoints(request, rate, hold, clock) =>
        if request.maximum > 0 {
          FillPointsConsumes(s.All(), s.pendingTransition,
            PointCall(request.minimum, request.maximum, Estimate(request.renderTime, clock),
                      rate, hold, clock));
        }
      case PullFrame(request, hold, clock) =>
        if request.maximum > 0 {
          FillFrameConsumes(s.All(), s.pendingTransition,
            FrameCall(request.maximum, request.blankCount, Estimate(request.renderTime, clock),
                      request.advanceWhenAvailable, request.repeatWhenIdle, hold, clock));
        }
    }
  }

  // ----- the bound -----

  /** Full charge of a frame of these points. */
  function FullCost(points: seq<LaserPoint>, minimumPerFrame: nat): nat
  {
    Max(|points|, Max(minimumPerFrame, 1))
  }

  /** Every frame costs at most `cost` in full, and the frames behind the front at most `budget + cost`
      together. */
  ghost predicate Bounded(queue: seq<Frame>, budget: nat, minimumPerFrame: nat, cost: nat)
  {
    && (forall i :: 0 <= i < |queue| ==> FullCost(queue[i].points, minimumPerFrame) <= cost)
    && (queue != [] ==> QueueCost(queue[1..], minimumPerFrame) <= budget + cost)
  }

  lemma FrameCostsAtMostFull(frame: Frame, m: nat)
    ensures FrameCost(frame, m) <= FullCost(frame.points, m)
  {
  }

  lemma {:induction false} SuffixCostsLess(queue: seq<Frame>, k: nat, m: nat)
    requires k <= |queue|
    ensures QueueCost(queue[k..], m) <= QueueCost(queue, m)
    decreases k
  {
    hide FrameCost;
    if k > 0 {
      SuffixCostsLess(queue[1..], k - 1, m);
      assert queue[1..][k - 1..] == queue[k..];
    }
  }

  lemma ConsumedStaysBounded(before: seq<Frame>, after: seq<Frame>, budget: nat, m: nat, cost: nat)
    requires Bounded(before, budget, m, cost) && Consumed(before, after)
    ensures Bounded(after, budget, m, cost)
  {
    hide QueueCost, FullCost;
    if after != [] {
      var k := |before| - |after|;
      assert after[1..] == before[k + 1..];
      assert before[1..][k..] == before[k + 1..];
      SuffixCostsLess(before[1..], k, m);
      forall i | 0 <= i < |after|
        ensures FullCost(after[i].points, m) <= cost
      {
        assert after[i].points == before[k + i].points;
      }
    }
  }

  /** After a successful test, until the submission it is for: what lies behind the front fits the
      budget alone. */
  ghost predicate Room(queue: seq<Frame>, budget: nat, minimumPerFrame: nat)
  {
    queue != [] ==> QueueCost(queue[1..], minimumPerFrame) <= budget
  }

  lemma TestedQueueHasRoom(queue: seq<Frame>, budget: nat, m: nat)
    requires QueueCost(queue, m) <= budget
    ensures Room(queue, budget, m)
  {
    if queue != [] {
      SuffixCostsLess(queue, 1, m);
    }
  }

  lemma ConsumedKeepsRoom(before: seq<Frame>, after: seq<Frame>, budget: nat, m: nat)
    requires Room(before, budget, m) && Consumed(before, after)
    ensures Room(after, budget, m)
  {
    hide QueueCost;
    if after != [] {
      var k := |before| - |after|;
      assert after[1..] == before[k + 1..];
      assert before[1..][k..] == before[k + 1..];
      SuffixCostsLess(before[1..], k, m);
    }
  }

  lemma SubmissionStaysBounded(s: Sched, points: seq<LaserPoint>, time: Time, budget: nat, m: nat, cost: nat)
    requires Bounded(s.All(), budget, m, cost) && FullCost(points, m) <= cost && Room(s.All(), budget, m)
    ensures Bounded(Enqueue(s, points, time).All(), budget, m, cost)
  {
    hide QueueCost, FullCost;
    if points != [] {
      var frame := Frame(s.accepted, points, time, 0, 0, 0);
      var q := s.All();
      assert Enqueue(s, points, time).All() == q + [frame];
      FrameCostsAtMostFull(frame, m);
      if q == [] {
        assert ([] + [frame])[1..] == [];
        QueueCostOfNothing(m);
      } else {
        assert (q + [frame])[1..] == q[1..] + [frame];
        QueueCostSnoc(q[1..], frame, m);
      }
    }
  }

  lemma AdmissionStaysBounded(s: Sched, points: seq<LaserPoint>, time: Time, budget: nat, m: nat, cost: nat)
    requires Bounded(s.All(), budget, m, cost) && FullCost(points, m) <= cost
    ensures Bounded(TryEnqueue(s, points, time, budget, m).All(), budget, m, cost)
  {
    hide QueueCost, FullCost, Bounded, Room;
    if points != [] && QueueCost(s.All(), m) <= budget {
      TestedQueueHasRoom(s.All(), budget, m);
      SubmissionStaysBounded(s, points, time, budget, m, cost);
    }
  }

  /** Every submission passes the admission test with this budget and floor, and costs at most `cost`:
      in one step, or asked for first (`ready` is the answer) with only fills in between, as the lock
      that senders share keeps other senders out. */
  ghost predicate Admitted(s: Sched, ready: bool, ops: seq<Op>, budget: nat, m: nat, cost: nat)
    requires WellFormed(s.All())
    decreases |ops|
  {
    ops == [] ||
    var next := After(s, ops[0]).0;
    match ops[0]
    case AskReady(b, f) =>
      b == budget && f == m && Admitted(next, QueueCost(s.All(), m) <= budget, ops[1..], budget, m, cost)
    case Submit(points, _) =>
      ready && FullCost(points, m) <= cost && Admitted(next, false, ops[1..], budget, m, cost)
    case TrySubmit(points, _, b, f) =>
      b == budget && f == m && FullCost(points, m) <= cost && Admitted(next, false, ops[1..], budget, m, cost)
    case _ => Admitted(next, ready, ops[1..], budget, m, cost)
  }

  lemma {:induction false} RunStaysBounded(s: Sched, ready: bool, ops: seq<Op>, budget: nat, m: nat, cost: nat)
    requires WellFormed(s.All()) && Bounded(s.All(), budget, m, cost)
    requires Admitted(s, ready, ops, budget, m, cost) && (ready ==> Room(s.All(), budget, m))
    ensures Bounded(StateAfter(s, ops).All(), budget, m, cost)
    decreases |ops|
  {
    hide Bounded, WellFormed, FullCost, QueueCost, PulledPoints, PulledFrame, Room;
    if ops != [] {
      var next := After(s, ops[0]).0;
      var stillReady := ready;
      match ops[0] {
        case AskReady(_, _) =>
          stillReady := QueueCost(s.All(), m) <= budget;
          if stillReady { TestedQueueHasRoom(s.All(), budget, m); }
        case Submit(points, time) =>
          SubmissionStaysBounded(s, points, time, budget, m, cost);
          stillReady := false;
        case TrySubmit(points, time, _, _) =>
          AdmissionStaysBounded(s, points, time, budget, m, cost);
          stillReady := false;
        case PullPoints(_, _, _, _) =>
          PullConsumes(s, ops[0]);
          ConsumedStaysBounded(s.All(), next.All(), budget, m, cost);
          if ready { ConsumedKeepsRoom(s.All(), next.All(), budget, m); }
        case PullFrame(_, _, _) =>
          PullConsumes(s, ops[0]);
          ConsumedStaysBounded(s.All(), next.All(), budget, m, cost);
          if ready { ConsumedKeepsRoom(s.All(), next.All(), budget, m); }
      }
      RunStaysBounded(next, stillReady, ops[1..], budget, m, cost);
    }
  }

  /** Over all interleavings of admissions, fills and replays: the frames behind the front never cost
      more than the budget and one frame, all of them never more than the budget and two. */
  lemma BacklogIsBounded(ops: seq<Op>, budget: nat, m: nat, cost: nat)
    requires Admitted(EMPTY, false, ops, budget, m, cost)
    ensures var queue := StateAfter(EMPTY, ops).All();
            && (queue != [] ==> QueueCost(queue[1..], m) <= budget + cost)
            && QueueCost(queue, m) <= budget + 2 * cost
  {
    hide FullCost, StateAfter, Admitted;
    assert EMPTY.All() == [];
    RunStaysBounded(EMPTY, false, ops, budget, m, cost);
    var queue := StateAfter(EMPTY, ops).All();
    if queue != [] {
      FrameCostsAtMostFull(queue[0], m);
    }
  }

  // ----- the charge in points and frames -----

  /** Points not yet shown, over all frames of a queue. */
  function Waiting(queue: seq<Frame>): nat
  {
    if queue == [] then 0
    else Max(|queue[0].points| - queue[0].nextPoint, 0) + Waiting(queue[1..])
  }

  /** Frames with points not yet shown. */
  function Unfinished(queue: seq<Frame>): nat
  {
    if queue == [] then 0
    else (if queue[0].nextPoint < |queue[0].points| then 1 else 0) + Unfinished(queue[1..])
  }

  /** The charge covers every point that waits and the floor for every frame that has one, and is no
      more than both together. */
  lemma {:induction false} CostCoversPointsAndFrames(queue: seq<Frame>, m: nat)
    ensures Waiting(queue) <= QueueCost(queue, m) <= Waiting(queue) + m * Unfinished(queue)
    ensures m * Unfinished(queue) <= QueueCost(queue, m)
    decreases |queue|
  {
    if queue == [] {
      assert m * 0 == 0;
    } else {
      CostCoversPointsAndFrames(queue[1..], m);
      OneMore(m, Unfinished(queue[1..]));
    }
  }

  lemma OneMore(m: nat, n: nat)
    ensures m * (1 + n) == m + m * n
  {
  }

  /** So, over all those runs, no more points wait, and no more frames at the floor each. */
  lemma WaitingIsBounded(ops: seq<Op>, budget: nat, m: nat, cost: nat)
    requires Admitted(EMPTY, false, ops, budget, m, cost)
    ensures var queue := StateAfter(EMPTY, ops).All();
            Waiting(queue) <= budget + 2 * cost && m * Unfinished(queue) <= budget + 2 * cost
  {
    hide StateAfter, Admitted, QueueCost, Waiting, Unfinished;
    BacklogIsBounded(ops, budget, m, cost);
    CostCoversPointsAndFrames(StateAfter(EMPTY, ops).All(), m);
  }

  // ----- budget zero: double buffering -----

  lemma {:induction false} FreshFramesCost(queue: seq<Frame>, m: nat)
    requires forall i :: 0 <= i < |queue| ==> queue[i].points != [] && queue[i].nextPoint == 0
    ensures QueueCost(queue, m) >= |queue|
    decreases |queue|
  {
    if queue != [] {
      FreshFramesCost(queue[1..], m);
    }
  }

  lemma TwoQueuedFramesCost(queue: seq<Frame>, m: nat)
    requires WellFormed(queue) && |queue| >= 2
    ensures QueueCost(queue, m) > 0
  {
    hide FrameCost;
    FreshFramesCost(queue[1..], m);
  }

  lemma ConsumedIsNoLonger(before: seq<Frame>, after: seq<Frame>)
    requires Consumed(before, after)
    ensures |after| <= |before|
  {
  }

  lemma {:induction false} RunKeepsTwoFrames(s: Sched, ready: bool, ops: seq<Op>, m: nat, cost: nat)
    requires WellFormed(s.All()) && |s.All()| <= 2 && Admitted(s, ready, ops, 0, m, cost)
    requires ready ==> |s.All()| <= 1
    ensures |StateAfter(s, ops).All()| <= 2
    decreases |ops|
  {
    hide FullCost, PulledPoints, PulledFrame, QueueCost, WellFormed, Consumed;
    if ops != [] {
      var next := After(s, ops[0]).0;
      var stillReady := ready;
      match ops[0] {
        case AskReady(_, _) =>
          stillReady := QueueCost(s.All(), m) <= 0;
          if |s.All()| == 2 { TwoQueuedFramesCost(s.All(), m); }
        case Submit(_, _) =>
          stillReady := false;
        case TrySubmit(points, time, _, _) =>
          stillReady := false;
          if |s.All()| == 2 { TwoQueuedFramesCost(s.All(), m); }
        case PullPoints(_, _, _, _) =>
          PullConsumes(s, ops[0]);
          ConsumedIsNoLonger(s.All(), next.All());
        case PullFrame(_, _, _) =>
          PullConsumes(s, ops[0]);
          ConsumedIsNoLonger(s.All(), next.All());
      }
      RunKeepsTwoFrames(next, stillReady, ops[1..], m, cost);
    }
  }

  /** With a budget of zero a frame is admitted only when at most one frame is queued and that one is
      spent: never more than two are queued, even if a fill rewinds the front frame between the test
      and the submission. */
  lemma ZeroBudgetQueuesTwo(ops: seq<Op>, m: nat, cost: nat)
    requires Admitted(EMPTY, false, ops, 0, m, cost)
    ensures |StateAfter(EMPTY, ops).All()| <= 2
  {
    RunKeepsTwoFrames(EMPTY, false, ops, m, cost);
  }
}
