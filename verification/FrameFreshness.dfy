/** Freshness of the point stream: a frame is repeated only while its successor is not due.

Within a call a repetition shows as content that returns from a frame to point 0 of the same frame;
across calls, as a call that begins with point 0 of a frame that had been played to its end. */
module FrameFreshness {
  import opened Arithmetic
  import opened FrameScheduler
  import opened FrameTrace
  import opened LaserPoints
  import opened Options

  /** The frame queued behind frame `id`, if there is one, is not due. */
  ghost predicate SuccessorNotDue(queue: seq<Frame>, id: nat, at: Time)
  {
    forall n :: 0 <= n < |queue| - 1 && queue[n].id == id ==> !Due(queue[n + 1], at)
  }

  ghost predicate NoContent(out: seq<Emit>, from: nat, to: nat)
    requires to <= |out|
  {
    forall m :: from <= m < to ==> !out[m].Content?
  }

  /** Content returns, from position i to position j, to point 0 of the frame it was in. */
  ghost predicate Repeats(out: seq<Emit>, i: nat, j: nat)
  {
    && i < j < |out| && out[i].Content? && out[j].Content? && NoContent(out, i + 1, j)
    && out[j].id == out[i].id && out[j].index == 0
  }

  /** Position j is the first content from `from` on. */
  ghost predicate FirstContent(out: seq<Emit>, from: nat, j: nat)
  {
    from <= j < |out| && out[j].Content? && NoContent(out, from, j)
  }

  ghost predicate IsQueued(queue: seq<Frame>, id: nat)
  {
    exists n :: 0 <= n < |queue| && queue[n].id == id
  }

  /** What one fill that starts with this queue, with `done` points emitted, may repeat. */
  ghost predicate RepeatsOnlyUnsucceeded(queue: seq<Frame>, done: nat, out: seq<Emit>, estimate: Time, rate: nat)
  {
    && (forall m :: done <= m < |out| && out[m].Content? ==> IsQueued(queue, out[m].id))
    && (forall i: nat, j: nat :: done <= i && Repeats(out, i, j) ==>
          SuccessorNotDue(queue, out[i].id, estimate + PlayTime(i + 1, rate)))
    && (forall j: nat :: Exhausted(queue) && FirstContent(out, done, j) && out[j].id == queue[0].id ==>
          SuccessorNotDue(queue, queue[0].id, estimate + PlayTime(done, rate)))
  }

  lemma OrderedSuffix(queue: seq<Frame>, k: nat)
    requires Ordered(queue) && k <= |queue|
    ensures Ordered(queue[k..])
    ensures forall id: nat :: IsQueued(queue[k..], id) ==> IsQueued(queue, id)
    ensures forall id: nat, at: Time :: IsQueued(queue[k..], id) && SuccessorNotDue(queue[k..], id, at) ==>
              SuccessorNotDue(queue, id, at)
  {
    var rest := queue[k..];
    forall id: nat | IsQueued(rest, id)
      ensures IsQueued(queue, id)
    {
      var n :| 0 <= n < |rest| && rest[n].id == id;
      assert queue[n + k].id == id;
    }
    forall id: nat, at: Time | IsQueued(rest, id) && SuccessorNotDue(rest, id, at)
      ensures SuccessorNotDue(queue, id, at)
    {
      var m :| 0 <= m < |rest| && rest[m].id == id;
      forall n | 0 <= n < |queue| - 1 && queue[n].id == id
        ensures !Due(queue[n + 1], at)
      {
        assert queue[m + k].id == id;
        assert n == m + k;
        assert rest[m + 1] == queue[n + 1];
      }
    }
  }

  /** Only the front frame's cursor and counters change: the same frames are queued. */
  lemma SameFramesQueued(queue: seq<Frame>, front: Frame)
    requires queue != [] && front.id == queue[0].id && Ordered(queue)
    ensures var q := [front] + queue[1..];
            && Ordered(q)
            && (forall id: nat :: IsQueued(q, id) ==> IsQueued(queue, id))
            && (forall id: nat, at: Time :: SuccessorNotDue(q, id, at) ==> SuccessorNotDue(queue, id, at))
  {
    var q := [front] + queue[1..];
    forall id: nat | IsQueued(q, id)
      ensures IsQueued(queue, id)
    {
      var n :| 0 <= n < |q| && q[n].id == id;
      assert queue[n].id == id;
    }
    forall id: nat, at: Time | SuccessorNotDue(q, id, at)
      ensures SuccessorNotDue(queue, id, at)
    {
      forall n | 0 <= n < |queue| - 1 && queue[n].id == id
        ensures !Due(queue[n + 1], at)
      {
        assert q[n].id == id && q[n + 1] == queue[n + 1];
      }
    }
  }

  // ----- one turn -----

  /** How many content points a turn emits, all of the front frame. */
  function TurnChunk(queue: seq<Frame>, out: seq<Emit>, call: PointCall): nat
    requires WellFormed(queue) && queue != [] && |out| < call.maximum
  {
    Min(|queue[0].points| - queue[0].nextPoint, call.maximum - |out|)
  }

  /** `o` goes on from `out` with so many points of the front frame. */
  ghost predicate ShowsChunk(queue: seq<Frame>, out: seq<Emit>, chunk: nat, o: seq<Emit>)
    requires queue != []
  {
    && |out| + chunk <= |o| && o[..|out|] == out
    && forall m :: |out| <= m < |out| + chunk ==>
         o[m].Content? && o[m].id == queue[0].id && o[m].index == queue[0].nextPoint + (m - |out|)
  }

  /** The next turn leaves the front frame for its successor, or repeats it because the successor is
      not due. */
  ghost predicate MovesOn(queue: seq<Frame>, next: seq<Frame>, at: Time)
    requires queue != []
  {
    || next == queue[1..]
    || (&& next != [] && next[0].id == queue[0].id && next[1..] == queue[1..]
        && (|queue| > 1 ==> !Due(queue[1], at)))
  }

  lemma TurnShowsChunk(queue: seq<Frame>, out: seq<Emit>, k: nat, call: PointCall)
    requires WellFormed(queue) && queue != [] && |out| < call.maximum
    ensures var t := PointTurn(queue, out, k, call);
            var o := if t.Done? then t.result.out else t.out;
            var chunk := TurnChunk(queue, out, call);
            ShowsChunk(queue, out, chunk, o) && NoContent(o, |out| + chunk, |o|)
  {
    hide PointTurn, Chunk, Due, PlayTime, ShowsChunk;
    var front := Started(queue[0], call.clock(2 * k + 1));
    var chunk := TurnChunk(queue, out, call);
    var dark := TurnAddsDarkness(queue, out, k, call);
    ChunkIsShown(queue, front, out, chunk, dark);
  }

  lemma TurnAddsDarkness(queue: seq<Frame>, out: seq<Emit>, k: nat, call: PointCall) returns (dark: seq<Emit>)
    requires WellFormed(queue) && queue != [] && |out| < call.maximum
    ensures var t := PointTurn(queue, out, k, call);
            var chunk := TurnChunk(queue, out, call);
            (if t.Done? then t.result.out else t.out)
              == out + Chunk(Started(queue[0], call.clock(2 * k + 1)), chunk) + dark
    ensures NoContent(dark, 0, |dark|)
  {
    hide Chunk, Bridge, Due, PlayTime, WellFormed;
    var t := PointTurn(queue, out, k, call);
    var o := if t.Done? then t.result.out else t.out;
    var out1 := out + Chunk(Started(queue[0], call.clock(2 * k + 1)), TurnChunk(queue, out, call));
    dark := o[|out1|..];
    assert out1 <= o;
  }

  lemma ChunkIsShown(queue: seq<Frame>, front: Frame, out: seq<Emit>, chunk: nat, dark: seq<Emit>)
    requires queue != [] && front.id == queue[0].id && front.nextPoint == queue[0].nextPoint
    requires front.nextPoint + chunk <= |front.points| && NoContent(dark, 0, |dark|)
    ensures var o := out + Chunk(front, chunk) + dark;
            ShowsChunk(queue, out, chunk, o) && NoContent(o, |out| + chunk, |o|)
  {
    var o := out + Chunk(front, chunk) + dark;
    assert forall m :: |out| <= m < |out| + chunk ==> o[m] == Chunk(front, chunk)[m - |out|];
    assert forall m :: |out| + chunk <= m < |o| ==> o[m] == dark[m - |out| - chunk];
  }

  lemma TurnMovesOn(queue: seq<Frame>, out: seq<Emit>, k: nat, call: PointCall)
    requires WellFormed(queue) && queue != [] && |out| < call.maximum
    requires PointTurn(queue, out, k, call).Again?
    ensures MovesOn(queue, PointTurn(queue, out, k, call).queue,
                    call.estimate + PlayTime(|out| + TurnChunk(queue, out, call), call.rate))
  {
    hide Bridge, Due, PlayTime;
  }

  /** A turn that ends the call emits a chunk of the front frame and then no content: no repetition. */
  lemma TurnStopsFresh(queue: seq<Frame>, out: seq<Emit>, chunk: nat, o: seq<Emit>, estimate: Time, rate: nat)
    requires queue != [] && ShowsChunk(queue, out, chunk, o) && NoContent(o, |out| + chunk, |o|)
    requires Exhausted(queue) ==> chunk == 0
    ensures RepeatsOnlyUnsucceeded(queue, |out|, o, estimate, rate)
  {
    hide PlayTime, SuccessorNotDue;
    assert IsQueued(queue, queue[0].id);
  }

  // ----- the loop -----

  lemma {:induction false} LoopRepeatsFresh(queue: seq<Frame>, out: seq<Emit>, k: nat, call: PointCall)
    requires WellFormed(queue) && Ordered(queue) && queue != [] && |out| < call.maximum
    ensures var f := PointLoop(queue, out, k, call);
            out <= f.out && RepeatsOnlyUnsucceeded(queue, |out|, f.out, call.estimate, call.rate)
    decreases call.maximum - |out|, Exhausted(queue)
  {
    hide PointTurn, WellFormed, RepeatsOnlyUnsucceeded, MovesOn, ShowsChunk, NoContent, Ordered, PlayTime;
    var t := PointTurn(queue, out, k, call);
    var chunk := TurnChunk(queue, out, call);
    TurnShowsChunk(queue, out, k, call);
    if t.Done? {
      TurnStopsFresh(queue, out, chunk, t.result.out, call.estimate, call.rate);
      StartsWith(queue, out, chunk, t.result.out);
    } else {
      PointTurnGoesOn(queue, out, k, call);
      TurnMovesOn(queue, out, k, call);
      NextQueueIsOrdered(queue, t.queue, call.estimate + PlayTime(|out| + chunk, call.rate));
      LoopRepeatsFresh(t.queue, t.out, k + 1, call);
      StartsWith(queue, out, chunk, t.out);
      TurnThenLoop(queue, out, chunk, t.out, t.queue, PointLoop(t.queue, t.out, k + 1, call).out, call);
    }
  }

  lemma StartsWith(queue: seq<Frame>, out: seq<Emit>, chunk: nat, o: seq<Emit>)
    requires queue != [] && ShowsChunk(queue, out, chunk, o)
    ensures out <= o
  {
  }

  lemma NextQueueIsOrdered(queue: seq<Frame>, next: seq<Frame>, at: Time)
    requires queue != [] && Ordered(queue) && MovesOn(queue, next, at)
    ensures Ordered(next)
  {
    if next == queue[1..] {
      OrderedSuffix(queue, 1);
    } else {
      SameFramesQueued(queue, next[0]);
      assert next == [next[0]] + queue[1..];
    }
  }

  /** What is true of the rest of the loop, and of the turn before it, is true of both together. */
  lemma TurnThenLoop(queue: seq<Frame>, out: seq<Emit>, chunk: nat, mid: seq<Emit>, next: seq<Frame>,
                     o: seq<Emit>, call: PointCall)
    requires queue != [] && Ordered(queue) && ShowsChunk(queue, out, chunk, mid)
    requires NoContent(mid, |out| + chunk, |mid|) && (Exhausted(queue) ==> chunk == 0)
    requires MovesOn(queue, next, call.estimate + PlayTime(|out| + chunk, call.rate))
    requires mid <= o && RepeatsOnlyUnsucceeded(next, |mid|, o, call.estimate, call.rate)
    ensures RepeatsOnlyUnsucceeded(queue, |out|, o, call.estimate, call.rate)
  {
    hide Due, PlayTime, Exhausted, SuccessorNotDue, IsQueued;
    FramesCarryOver(queue, next, call.estimate + PlayTime(|out| + chunk, call.rate));
    FrontIsQueued(queue);
    forall m | |out| <= m < |o| && o[m].Content?
      ensures IsQueued(queue, o[m].id)
    {
      if m < |mid| { assert o[m] == mid[m]; }
    }
    forall i: nat, j: nat | |out| <= i && Repeats(o, i, j)
      ensures SuccessorNotDue(queue, o[i].id, call.estimate + PlayTime(i + 1, call.rate))
    {
      if i < |mid| {
        LeavesTheChunk(queue, out, chunk, mid, o, i, j);
        FrontSuccessor(queue, next, call.estimate + PlayTime(|out| + chunk, call.rate));
      }
    }
    forall j: nat | Exhausted(queue) && FirstContent(o, |out|, j) && o[j].id == queue[0].id
      ensures SuccessorNotDue(queue, queue[0].id, call.estimate + PlayTime(|out|, call.rate))
    {
      FrontSuccessor(queue, next, call.estimate + PlayTime(|out|, call.rate));
    }
  }

  lemma FrontIsQueued(queue: seq<Frame>)
    requires queue != []
    ensures IsQueued(queue, queue[0].id)
  {
  }

  /** From inside a chunk, the next content at point 0 can only lie behind the turn, and the chunk ends
      where it came from. */
  lemma LeavesTheChunk(queue: seq<Frame>, out: seq<Emit>, chunk: nat, mid: seq<Emit>, o: seq<Emit>, i: nat, j: nat)
    requires queue != [] && mid <= o && ShowsChunk(queue, out, chunk, mid)
    requires NoContent(mid, |out| + chunk, |mid|)
    requires |out| <= i < |mid| && Repeats(o, i, j)
    ensures j >= |mid| && i + 1 == |out| + chunk && o[i].id == queue[0].id
  {
    assert o[i] == mid[i];
    assert i < |out| + chunk;
    if i + 1 < |mid| {
      assert o[i + 1] == mid[i + 1];
    }
  }

  /** The next queue queues the same frames, possibly without the front. */
  lemma FramesCarryOver(queue: seq<Frame>, next: seq<Frame>, at: Time)
    requires queue != [] && Ordered(queue) && MovesOn(queue, next, at)
    ensures forall id: nat :: IsQueued(next, id) ==> IsQueued(queue, id)
    ensures forall id: nat, at: Time :: IsQueued(next, id) && SuccessorNotDue(next, id, at) ==>
              SuccessorNotDue(queue, id, at)
  {
    if next == queue[1..] {
      OrderedSuffix(queue, 1);
    } else {
      SameFramesQueued(queue, next[0]);
      assert next == [next[0]] + queue[1..];
    }
  }

  /** Content of the old front frame after the turn: the frame was kept, so its successor was not due. */
  lemma FrontSuccessor(queue: seq<Frame>, next: seq<Frame>, at: Time)
    requires queue != [] && Ordered(queue) && IsQueued(next, queue[0].id) && MovesOn(queue, next, at)
    ensures SuccessorNotDue(queue, queue[0].id, at)
  {
    hide Due;
    if next == queue[1..] {
      FrontIsGone(queue);
    }
  }

  lemma FrontIsGone(queue: seq<Frame>)
    requires queue != [] && Ordered(queue)
    ensures !IsQueued(queue[1..], queue[0].id)
  {
    assert forall n :: 0 <= n < |queue| - 1 ==> queue[1..][n] == queue[n + 1];
  }

  // ----- whole calls and runs -----

  /** One call of fillPoints, leftover transition points first. */
  lemma FillRepeatsFresh(queue: seq<Frame>, transition: seq<LaserPoint>, call: PointCall)
    requires WellFormed(queue) && Ordered(queue) && call.maximum > 0
    ensures var f := FillPointsQueue(queue, transition, call);
            RepeatsOnlyUnsucceeded(queue, Min(call.maximum, |transition|), f.out, call.estimate, call.rate)
  {
    hide PointLoop, DropStale, PlayTime, Due, SuccessorNotDue, IsQueued;
    var n := Min(call.maximum, |transition|);
    var out := Transitions(transition[..n]);
    if |out| < call.maximum && queue != [] {
      var live := DropStale(queue, call.estimate);
      WellFormedSuffix(queue, |queue| - |live|);
      OrderedSuffix(queue, |queue| - |live|);
      if live[0].playCount > 0 || Due(live[0], call.estimate) {
        LoopRepeatsFresh(live, out, 0, call);
        LiveStandsForAll(queue, live, n, PointLoop(live, out, 0, call).out, call);
      }
    }
  }

  lemma LiveStandsForAll(queue: seq<Frame>, live: seq<Frame>, done: nat, o: seq<Emit>, call: PointCall)
    requires Ordered(queue) && live != [] && live == DropStale(queue, call.estimate)
    requires RepeatsOnlyUnsucceeded(live, done, o, call.estimate, call.rate)
    ensures RepeatsOnlyUnsucceeded(queue, done, o, call.estimate, call.rate)
  {
    hide DropStale, PlayTime, Due, SuccessorNotDue, IsQueued, Exhausted;
    OrderedSuffix(queue, |queue| - |live|);
    if Exhausted(queue) {
      ExhaustedFrontIsLive(queue, live, done, o, call);
    }
  }

  lemma ExhaustedFrontIsLive(queue: seq<Frame>, live: seq<Frame>, done: nat, o: seq<Emit>, call: PointCall)
    requires Exhausted(queue) && Ordered(queue) && live != [] && live == DropStale(queue, call.estimate)
    requires RepeatsOnlyUnsucceeded(live, done, o, call.estimate, call.rate)
    ensures forall j: nat :: FirstContent(o, done, j) && o[j].id == queue[0].id ==>
              SuccessorNotDue(queue, queue[0].id, call.estimate + PlayTime(done, call.rate))
  {
    hide PlayTime, Due, SuccessorNotDue, DropStale;
    var k := |queue| - |live|;
    if k > 0 {
      forall j: nat | FirstContent(o, done, j)
        ensures o[j].id != queue[0].id
      {
        var n :| 0 <= n < |live| && live[n].id == o[j].id;
        assert queue[n + k].id == o[j].id;
      }
    } else {
      assert live == queue;
    }
  }

  /** Over every run of any calls, a point request repeats a frame only while the frame queued behind it
      is not due at the moment of the repetition: the estimate plus the play time of what the call
      has emitted by then. */
  lemma EveryRunRepeatsOnlyUnsucceeded(ops: seq<Op>, op: Op)
    requires op.PullPoints? && op.pointRequest.maximum > 0
    ensures var s := StateAfter(EMPTY, ops);
            var done := Min(op.pointRequest.maximum, |s.pendingTransition|);
            RepeatsOnlyUnsucceeded(s.All(), done, After(s, op).1,
                                   Estimate(op.pointRequest.renderTime, op.clock), op.rate)
  {
    hide FillPointsQueue, RepeatsOnlyUnsucceeded, Path, OnePath, AllHonest, StateAfter, Output, Accepted;
    EveryRunFollowsOnePath(ops);
    var s := StateAfter(EMPTY, ops);
    assert Ordered(s.All());
    var request := op.pointRequest;
    FillRepeatsFresh(s.All(), s.pendingTransition,
      PointCall(request.minimum, request.maximum, Estimate(request.renderTime, op.clock),
                op.rate, op.hold, op.clock));
  }
}
