/** Auto-blanking: once a frame has been held for the maximum hold time and nothing has replaced it,
its current loop is the last. */
module FrameHold {
  import opened Arithmetic
  import opened FrameScheduler
  import opened FrameTrace
  import opened LaserPoints

  /** `count` successive points of one frame. */
  ghost function RunOf(id: nat, from: nat, count: nat): (r: seq<Cursor>)
    ensures |r| == count
  {
    seq(count, i requires 0 <= i < count => Cursor(id, from + i))
  }

  lemma {:induction false} PathOfChunk(frame: Frame, count: nat)
    requires frame.nextPoint + count <= |frame.points|
    ensures Path(Chunk(frame, count)) == RunOf(frame.id, frame.nextPoint, count)
    decreases count
  {
    if count > 0 {
      var next := frame.(nextPoint := frame.nextPoint + 1);
      assert Chunk(frame, count)[1..] == Chunk(next, count - 1);
      PathOfChunk(next, count - 1);
      assert RunOf(frame.id, frame.nextPoint, count)
          == [Cursor(frame.id, frame.nextPoint)] + RunOf(next.id, next.nextPoint, count - 1);
    }
  }

  /** The only queued frame has been held for the hold time at every reading from `from` on; an empty
      queue has nothing left to hold. */
  ghost predicate Expired(queue: seq<Frame>, hold: Time, from: Time)
  {
    queue == [] ||
    (|queue| == 1 && queue[0].playCount > 0 && from - queue[0].firstPlayTime >= hold
     && queue[0].nextPoint <= |queue[0].points|)
  }

  /** What is left of the current loop. */
  ghost function RestOfLoop(queue: seq<Frame>): seq<Cursor>
  {
    if queue == [] || queue[0].nextPoint > |queue[0].points| then []
    else RunOf(queue[0].id, queue[0].nextPoint, |queue[0].points| - queue[0].nextPoint)
  }

  /** Only pulls, all with this hold time, all at clock readings from `from` on. */
  ghost predicate OnlyLatePulls(ops: seq<Op>, hold: Time, from: Time)
  {
    forall i :: 0 <= i < |ops| ==> LatePull(ops[i], hold, from)
  }

  ghost predicate LatePull(op: Op, hold: Time, from: Time)
  {
    (op.PullPoints? || op.PullFrame?) && op.hold == hold && forall n: nat :: op.clock(n) >= from
  }

  /** A call emits some of the rest of the loop, in order, and leaves the rest or an empty queue. */
  ghost predicate Drains(before: seq<Frame>, after: seq<Frame>, path: seq<Cursor>, hold: Time, from: Time)
  {
    Expired(after, hold, from) && path + RestOfLoop(after) <= RestOfLoop(before)
  }

  lemma EmittingDrains(frame: Frame, played: Frame, count: nat, hold: Time, from: Time)
    requires Expired([frame], hold, from) && frame.nextPoint + count <= |frame.points|
    requires played.id == frame.id && played.points == frame.points && played.playCount > 0
    requires played.firstPlayTime == frame.firstPlayTime && played.nextPoint == frame.nextPoint + count
    ensures Drains([frame], [played], RunOf(frame.id, frame.nextPoint, count), hold, from)
    ensures Drains([frame], [], RunOf(frame.id, frame.nextPoint, count), hold, from)
  {
    var rest := |frame.points| - frame.nextPoint;
    assert RunOf(frame.id, frame.nextPoint, rest)
        == RunOf(frame.id, frame.nextPoint, count) + RunOf(frame.id, played.nextPoint, rest - count);
  }

  lemma NothingDrains(queue: seq<Frame>, hold: Time, from: Time)
    requires Expired(queue, hold, from)
    ensures Drains(queue, queue, [], hold, from) && Drains(queue, [], [], hold, from)
  {
    assert [] + RestOfLoop(queue) == RestOfLoop(queue);
  }

  lemma PathOfDark(out: seq<Emit>)
    requires forall i :: 0 <= i < |out| ==> !out[i].Content?
    ensures Path(out) == []
  {
    NoContentNoPath(out);
  }

  lemma PathOfDarkChunkDark(a: seq<Emit>, chunk: seq<Emit>, b: seq<Emit>)
    requires forall i :: 0 <= i < |a| ==> !a[i].Content?
    requires forall i :: 0 <= i < |b| ==> !b[i].Content?
    ensures Path(a + chunk + b) == Path(chunk) && Path(a + chunk) == Path(chunk)
  {
    PathOfDark(a);
    PathOfDark(b);
    PathOfSum(a, chunk);
    PathOfSum(a + chunk, b);
    assert [] + Path(chunk) == Path(chunk) && Path(chunk) + [] == Path(chunk);
  }

  /** On a held frame the point loop ends in its first turn. */
  lemma HeldPointTurn(frame: Frame, out: seq<Emit>, call: PointCall, from: Time)
    requires WellFormed([frame]) && Expired([frame], call.hold, from) && call.hold > 0
    requires |out| < call.maximum && (forall n: nat :: call.clock(n) >= from)
    ensures var count := Min(|frame.points| - frame.nextPoint, call.maximum - |out|);
            var t := PointTurn([frame], out, 0, call);
            || t == Done(Filled([frame.(nextPoint := frame.nextPoint + count)], [],
                                out + Chunk(frame, count)))
            || t == Done(Filled([], [], out + Chunk(frame, count)
                                        + Blanks(Shortfall(call.minimum, |out| + count))))
  {
    hide Chunk, Bridge, Cross, Due, PlayTime, Blanks;
    assert [frame][1..] == [];
    assert Started(frame, call.clock(1)) == frame;
    assert call.clock(2) >= from;
  }

  lemma HeldPointLoop(frame: Frame, out: seq<Emit>, call: PointCall, from: Time)
    requires WellFormed([frame]) && Expired([frame], call.hold, from) && call.hold > 0
    requires |out| < call.maximum && (forall n: nat :: call.clock(n) >= from)
    requires forall i :: 0 <= i < |out| ==> !out[i].Content?
    ensures var f := PointLoop([frame], out, 0, call);
            Drains([frame], f.queue, Path(f.out), call.hold, from)
  {
    hide Path, Drains, Chunk, PointTurn, PlayTime;
    var count := Min(|frame.points| - frame.nextPoint, call.maximum - |out|);
    var blanks := Blanks(Shortfall(call.minimum, |out| + count));
    HeldPointTurn(frame, out, call, from);
    PathOfChunk(frame, count);
    PathOfDarkChunkDark(out, Chunk(frame, count), blanks);
    EmittingDrains(frame, frame.(nextPoint := frame.nextPoint + count), count, call.hold, from);
  }

  lemma HeldFrameTurn(frame: Frame, out: seq<Emit>, call: FrameCall, from: Time)
    requires WellFormed([frame]) && Expired([frame], call.hold, from) && call.hold > 0
    requires |out| < call.maximum && (forall n: nat :: call.clock(n) >= from)
    ensures var t := FrameLoopTurn([frame], out, call);
            t.Finish? &&
            var f := t.result.filled;
            if Exhausted([frame]) then f.queue == [] && f.out == Blanks(Min(call.blankCount, call.maximum))
            else
              var count := Min(|frame.points| - frame.nextPoint, call.maximum);
              && |f.queue| == 1
              && f.queue[0].id == frame.id && f.queue[0].points == frame.points
              && f.queue[0].playCount > 0 && f.queue[0].firstPlayTime == frame.firstPlayTime
              && f.queue[0].nextPoint == frame.nextPoint + count
              && f.out == out + Chunk(frame, count)
  {
    hide Chunk, Due, Blanks;
    assert [frame][1..] == [];
    assert call.clock(2) >= from;
  }

  lemma HeldFrameLoop(frame: Frame, out: seq<Emit>, call: FrameCall, from: Time)
    requires WellFormed([frame]) && Expired([frame], call.hold, from) && call.hold > 0
    requires |out| < call.maximum && (forall n: nat :: call.clock(n) >= from)
    requires forall i :: 0 <= i < |out| ==> !out[i].Content?
    ensures var f := FrameLoop([frame], out, call).filled;
            Drains([frame], f.queue, Path(f.out), call.hold, from)
  {
    hide Path, Drains, Chunk, FrameLoopTurn;
    HeldFrameTurn(frame, out, call, from);
    var f := FrameLoop([frame], out, call).filled;
    if Exhausted([frame]) {
      NothingDrains([frame], call.hold, from);
      PathOfDark(Blanks(Min(call.blankCount, call.maximum)));
    } else {
      var count := Min(|frame.points| - frame.nextPoint, call.maximum);
      PathOfChunk(frame, count);
      PathOfDarkChunkDark(out, Chunk(frame, count), []);
      EmittingDrains(frame, f.queue[0], count, call.hold, from);
      assert f.queue == [f.queue[0]];
    }
  }

  lemma HeldFillPoints(queue: seq<Frame>, transition: seq<LaserPoint>, call: PointCall, from: Time)
    requires WellFormed(queue) && Expired(queue, call.hold, from) && call.hold > 0 && call.maximum > 0
    requires forall n: nat :: call.clock(n) >= from
    ensures var f := FillPointsQueue(queue, transition, call);
            Drains(queue, f.queue, Path(f.out), call.hold, from)
  {
    hide Path, Drains, PointLoop;
    var out := Transitions(transition[..Min(call.maximum, |transition|)]);
    NothingDrains(queue, call.hold, from);
    PathOfDark(out);
    PathOfDark(out + Blanks(call.minimum));
    if queue != [] && |out| < call.maximum {
      assert queue == [queue[0]];
      HeldPointLoop(queue[0], out, call, from);
    }
  }

  lemma HeldFillFrame(queue: seq<Frame>, transition: seq<LaserPoint>, call: FrameCall, from: Time)
    requires WellFormed(queue) && Expired(queue, call.hold, from) && call.hold > 0 && call.maximum > 0
    requires forall n: nat :: call.clock(n) >= from
    ensures var f := FillFrameQueue(queue, transition, call).filled;
            Drains(queue, f.queue, Path(f.out), call.hold, from)
  {
    hide Path, Drains, FrameLoop;
    var out := Transitions(transition[..Min(call.maximum, |transition|)]);
    NothingDrains(queue, call.hold, from);
    PathOfDark(out);
    PathOfDark(Blanks(Min(call.blankCount, call.maximum)));
    if queue != [] && |out| < call.maximum {
      assert queue == [queue[0]];
      HeldFrameLoop(queue[0], out, call, from);
    }
  }

  lemma HeldPull(s: Sched, op: Op, hold: Time, from: Time)
    requires WellFormed(s.All()) && Expired(s.All(), hold, from) && hold > 0 && LatePull(op, hold, from)
    ensures var r := After(s, op);
            Drains(s.All(), r.0.All(), Path(r.1), hold, from)
  {
    hide FillPointsQueue, FillFrameQueue, Path, Drains, Expired, WellFormed;
    NothingDrains(s.All(), hold, from);
    PathOfDark([]);
    var r := After(s, op).0;
    assert r.All() == r.frameQueue;
    match op {
      case PullPoints(request, rate, _, clock) =>
        if request.maximum > 0 {
          HeldFillPoints(s.All(), s.pendingTransition,
            PointCall(request.minimum, request.maximum, Estimate(request.renderTime, clock),
                      rate, hold, clock), from);
        }
      case PullFrame(request, _, clock) =>
        if request.maximum > 0 {
          HeldFillFrame(s.All(), s.pendingTransition,
            FrameCall(request.maximum, request.blankCount, Estimate(request.renderTime, clock),
                      request.advanceWhenAvailable, request.repeatWhenIdle, hold, clock), from);
        }
    }
  }

  /** From the moment the only frame has been held long enough, for as long as nothing is submitted:
      all content ever emitted is the rest of its current loop. It is not started again. */
  lemma {:induction false} HeldFrameIsNotReplayed(s: Sched, ops: seq<Op>, hold: Time, from: Time)
    requires WellFormed(s.All()) && Expired(s.All(), hold, from) && hold > 0
    requires OnlyLatePulls(ops, hold, from)
    ensures Path(Output(s, ops)) <= RestOfLoop(s.All())
    decreases |ops|
  {
    hide After, Path, Expired, RestOfLoop, WellFormed, LatePull;
    PathOfDark([]);
    if ops != [] {
      var r := After(s, ops[0]);
      HeldPull(s, ops[0], hold, from);
      HeldFrameIsNotReplayed(r.0, ops[1..], hold, from);
      PathOfSum(r.1, Output(r.0, ops[1..]));
    }
  }

  // ----- when a hold begins -----

  /** The front frame keeps the time at which it was first shown, or is shown for the first time at one of
      the call's own readings. */
  ghost predicate Stamped(before: seq<Frame>, after: seq<Frame>, clock: Clock)
  {
    after != [] && after[0].playCount > 0 ==>
      || (before != [] && before[0].playCount > 0 && before[0].id == after[0].id
          && before[0].firstPlayTime == after[0].firstPlayTime)
      || (exists k: nat :: k > 0 && after[0].firstPlayTime == clock(k))
  }

  lemma StampedTwice(a: seq<Frame>, b: seq<Frame>, c: seq<Frame>, clock: Clock)
    requires Stamped(a, b, clock) && Stamped(b, c, clock)
    ensures Stamped(a, c, clock)
  {
  }

  lemma StampedSuffix(queue: seq<Frame>, k: nat, clock: Clock)
    requires WellFormed(queue) && k <= |queue|
    ensures Stamped(queue, queue[k..], clock)
  {
  }

  lemma PointTurnStamps(queue: seq<Frame>, out: seq<Emit>, k: nat, call: PointCall)
    requires WellFormed(queue) && queue != [] && |out| < call.maximum
    ensures match PointTurn(queue, out, k, call)
            case Done(f) => Stamped(queue, f.queue, call.clock)
            case Again(q, _) => Stamped(queue, q, call.clock)
  {
    hide Bridge, Due, PlayTime, Chunk, Blanks;
    StampedSuffix(queue, 1, call.clock);
  }

  lemma {:induction false} PointLoopStamps(queue: seq<Frame>, out: seq<Emit>, k: nat, call: PointCall)
    requires WellFormed(queue) && queue != [] && |out| < call.maximum
    ensures Stamped(queue, PointLoop(queue, out, k, call).queue, call.clock)
    decreases call.maximum - |out|, Exhausted(queue)
  {
    hide PointTurn, WellFormed, Stamped, Exhausted;
    PointTurnStamps(queue, out, k, call);
    var t := PointTurn(queue, out, k, call);
    if t.Again? {
      PointTurnGoesOn(queue, out, k, call);
      PointLoopStamps(t.queue, t.out, k + 1, call);
      StampedTwice(queue, t.queue, PointLoop(t.queue, t.out, k + 1, call).queue, call.clock);
    }
  }

  lemma FrameTurnStamps(queue: seq<Frame>, out: seq<Emit>, call: FrameCall)
    requires WellFormed(queue) && |out| < call.maximum
    requires queue != [] && queue[0].playCount == 0 ==> queue[0].nextPoint == 0
    ensures match FrameLoopTurn(queue, out, call)
            case Finish(r) => Stamped(queue, r.filled.queue, call.clock)
            case Continue(q, _) => Stamped(queue, q, call.clock)
  {
    hide Bridge, Due, Chunk, Blanks;
    if queue != [] {
      StampedSuffix(queue, 1, call.clock);
    }
  }

  lemma {:induction false} FrameLoopStamps(queue: seq<Frame>, out: seq<Emit>, call: FrameCall)
    requires WellFormed(queue) && |out| < call.maximum
    requires queue != [] && queue[0].playCount == 0 ==> queue[0].nextPoint == 0
    ensures Stamped(queue, FrameLoop(queue, out, call).filled.queue, call.clock)
    decreases Exhausted(queue)
  {
    hide FrameLoop, Stamped, Bridge;
    FrameTurnStamps(queue, out, call);
    UnfoldFrameLoop(queue, out, call);
    var t := FrameLoopTurn(queue, out, call);
    if t.Continue? {
      FrameLoopStamps(t.queue, t.out, call);
      StampedTwice(queue, t.queue, FrameLoop(t.queue, t.out, call).filled.queue, call.clock);
    }
  }

  lemma FillPointsStamps(queue: seq<Frame>, transition: seq<LaserPoint>, call: PointCall)
    requires WellFormed(queue) && call.maximum > 0
    ensures Stamped(queue, FillPointsQueue(queue, transition, call).queue, call.clock)
  {
    hide PointLoop, DropStale, Stamped, Due, WellFormed;
    StaysStamped(queue, call.clock);
    var out := Transitions(transition[..Min(call.maximum, |transition|)]);
    if queue != [] && |out| < call.maximum {
      var live := DropStale(queue, call.estimate);
      WellFormedSuffix(queue, |queue| - |live|);
      StampedSuffix(queue, |queue| - |live|, call.clock);
      PointLoopStamps(live, out, 0, call);
      StampedTwice(queue, live, PointLoop(live, out, 0, call).queue, call.clock);
    }
  }

  lemma FillFrameStamps(queue: seq<Frame>, transition: seq<LaserPoint>, call: FrameCall)
    requires WellFormed(queue) && call.maximum > 0
    requires queue != [] && queue[0].playCount == 0 ==> queue[0].nextPoint == 0
    ensures Stamped(queue, FillFrameQueue(queue, transition, call).filled.queue, call.clock)
  {
    hide FrameLoop, DropStale, Stamped, Due;
    StaysStamped(queue, call.clock);
    var out := Transitions(transition[..Min(call.maximum, |transition|)]);
    if queue != [] && |out| < call.maximum {
      var live := DropStale(queue, call.estimate);
      WellFormedSuffix(queue, |queue| - |live|);
      StampedSuffix(queue, |queue| - |live|, call.clock);
      FrameLoopStamps(live, out, call);
      StampedTwice(queue, live, FrameLoop(live, out, call).filled.queue, call.clock);
    }
  }

  lemma StaysStamped(queue: seq<Frame>, clock: Clock)
    ensures Stamped(queue, queue, clock)
  {
  }

  /** Over every run: whatever call first shows a frame, its hold counts from a reading of the clock in
      that call, and no later call changes it. */
  lemma HoldsBeginWhenShown(ops: seq<Op>, op: Op)
    requires op.PullPoints? || op.PullFrame?
    ensures var s := StateAfter(EMPTY, ops);
            Stamped(s.All(), After(s, op).0.All(), op.clock)
  {
    hide StateAfter, FillPointsQueue, FillFrameQueue, Stamped, Path, OnePath, AllHonest, Output, Accepted,
      Resumes, Ordered, Leftover;
    EveryRunFollowsOnePath(ops);
    var s := StateAfter(EMPTY, ops);
    if s.All() != [] {
      assert Genuine(Accepted(EMPTY, ops), s.accepted, s.All()[0]);
    }
    StaysStamped(s.All(), op.clock);
    var r := After(s, op).0;
    assert r.All() == r.frameQueue;
    if op.PullPoints? {
      var q := op.pointRequest;
      if q.maximum > 0 {
        FillPointsStamps(s.All(), s.pendingTransition,
          PointCall(q.minimum, q.maximum, Estimate(q.renderTime, op.clock), op.rate, op.hold, op.clock));
      }
    } else {
      var q := op.frameRequest;
      if q.maximum > 0 {
        FillFrameStamps(s.All(), s.pendingTransition,
          FrameCall(q.maximum, q.blankCount, Estimate(q.renderTime, op.clock),
                    q.advanceWhenAvailable, q.repeatWhenIdle, op.hold, op.clock));
      }
    }
  }
}
