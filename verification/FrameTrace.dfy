/** Whole-run safety of the frame queue: whatever the interleaving of submissions, point fills and
frame fills, the content points emitted follow one path through the accepted frames.

`history` is the list of the point lists of all accepted frames, in order of acceptance. */
module FrameTrace {
  import opened Arithmetic
  import opened FrameScheduler
  import opened LaserPoints
  import opened Options

  /** Point `index` of the frame accepted as number `id`. */
  datatype Cursor = Cursor(id: nat, index: nat)

  type History = seq<seq<LaserPoint>>

  // ----- the path property -----

  /** The content points of an output, without blanks and transitions. */
  ghost function Path(out: seq<Emit>): seq<Cursor>
  {
    if out == [] then []
    else (if out[0].Content? then [Cursor(out[0].id, out[0].index)] else []) + Path(out[1..])
  }

  ghost predicate Exists(h: History, c: Cursor) { c.id < |h| && c.index < |h[c.id]| }

  ghost predicate EndsFrame(h: History, c: Cursor) { Exists(h, c) && c.index + 1 == |h[c.id]| }

  /** The next point of the same frame, or, from the end of a frame, point 0 of the same frame or
      of one accepted later. The very first point is point 0 of some frame. */
  ghost predicate Follows(h: History, last: Option<Cursor>, c: Cursor)
  {
    && Exists(h, c)
    && match last
       case None => c.index == 0
       case Some(a) =>
         || (c.id == a.id && c.index == a.index + 1)
         || (EndsFrame(h, a) && c.index == 0 && c.id >= a.id)
  }

  ghost predicate OnePath(h: History, last: Option<Cursor>, path: seq<Cursor>)
    decreases |path|
  {
    path == [] || (Follows(h, last, path[0]) && OnePath(h, Some(path[0]), path[1..]))
  }

  ghost function LastOf(last: Option<Cursor>, path: seq<Cursor>): Option<Cursor>
  {
    if path == [] then last else Some(path[|path| - 1])
  }

  /** Content points carry the sample they name; everything else is dark. */
  ghost predicate Honest(h: History, e: Emit)
  {
    match e
    case Content(id, index, sample) => Exists(h, Cursor(id, index)) && sample == h[id][index]
    case Transition(sample) => Dark(sample)
    case Blank(sample) => Dark(sample)
  }

  ghost predicate AllHonest(h: History, out: seq<Emit>)
  {
    forall i :: 0 <= i < |out| ==> Honest(h, out[i])
  }

  lemma {:induction false} PathOfSum(a: seq<Emit>, b: seq<Emit>)
    ensures Path(a + b) == Path(a) + Path(b)
    decreases |a|
  {
    if a == [] {
      assert a + b == b;
    } else {
      PathOfSum(a[1..], b);
      assert (a + b)[1..] == a[1..] + b && (a + b)[0] == a[0];
      var head := if a[0].Content? then [Cursor(a[0].id, a[0].index)] else [];
      calc {
        Path(a + b);
        head + Path(a[1..] + b);
        head + (Path(a[1..]) + Path(b));
        (head + Path(a[1..])) + Path(b);
      }
    }
  }

  lemma {:induction false} NoContentNoPath(out: seq<Emit>)
    requires forall i :: 0 <= i < |out| ==> !out[i].Content?
    ensures Path(out) == []
    decreases |out|
  {
    if out != [] {
      NoContentNoPath(out[1..]);
    }
  }

  lemma {:induction false} OnePathOfSum(h: History, last: Option<Cursor>, a: seq<Cursor>, b: seq<Cursor>)
    requires OnePath(h, last, a) && OnePath(h, LastOf(last, a), b)
    ensures OnePath(h, last, a + b) && LastOf(last, a + b) == LastOf(LastOf(last, a), b)
    decreases |a|
  {
    if a == [] {
      assert a + b == b;
    } else {
      OnePathOfSum(h, Some(a[0]), a[1..], b);
      assert (a + b)[1..] == a[1..] + b;
    }
  }

  /** What `OnePath` says about two neighbours anywhere in the path. */
  lemma {:induction false} NeighboursFollow(h: History, last: Option<Cursor>, path: seq<Cursor>, k: nat)
    requires OnePath(h, last, path) && k < |path|
    ensures Follows(h, if k == 0 then last else Some(path[k - 1]), path[k])
    decreases k
  {
    if k > 0 {
      NeighboursFollow(h, Some(path[0]), path[1..], k - 1);
    }
  }

  // ----- the invariant that ties the queue to the path -----

  ghost predicate Genuine(h: History, accepted: nat, frame: Frame)
  {
    && frame.id < accepted <= |h|
    && frame.points == h[frame.id]
    && (frame.playCount == 0 ==> frame.nextPoint == 0)
  }

  ghost predicate Ordered(queue: seq<Frame>)
  {
    forall i, j :: 0 <= i < j < |queue| ==> queue[i].id < queue[j].id
  }

  /** A front frame that has been started continues right after the last content point; otherwise
      that point ended its frame, and every queued frame is later. */
  ghost predicate Resumes(h: History, queue: seq<Frame>, last: Option<Cursor>)
  {
    if queue != [] && queue[0].playCount > 0 then
      && last.Some?
      && last.value.id == queue[0].id
      && if queue[0].nextPoint > 0 then last.value.index + 1 == queue[0].nextPoint
         else EndsFrame(h, last.value)
    else
      last.Some? ==>
        && EndsFrame(h, last.value)
        && forall i :: 0 <= i < |queue| ==> last.value.id < queue[i].id
  }

  ghost predicate Sound(h: History, accepted: nat, queue: seq<Frame>, last: Option<Cursor>)
  {
    && WellFormed(queue)
    && accepted <= |h|
    && (forall i :: 0 <= i < |queue| ==> Genuine(h, accepted, queue[i]))
    && Ordered(queue)
    && Resumes(h, queue, last)
    && (last.Some? ==> Exists(h, last.value) && last.value.id < accepted)
  }

  /** The invariant during a call that started after `last` and has emitted `out`. */
  ghost predicate Tracks(h: History, accepted: nat, last: Option<Cursor>, queue: seq<Frame>, out: seq<Emit>)
  {
    && AllHonest(h, out)
    && OnePath(h, last, Path(out))
    && Sound(h, accepted, queue, LastOf(last, Path(out)))
  }

  lemma TracksDark(h: History, n: nat, last: Option<Cursor>, queue: seq<Frame>, out: seq<Emit>, dark: seq<Emit>)
    requires Tracks(h, n, last, queue, out)
    requires forall i :: 0 <= i < |dark| ==> !dark[i].Content? && Dark(dark[i].sample)
    ensures Tracks(h, n, last, queue, out + dark)
  {
    hide Sound;
    PathOfSum(out, dark);
    NoContentNoPath(dark);
    assert Path(out) + [] == Path(out);
  }

  lemma {:induction false} ChunkIsARun(h: History, last: Option<Cursor>, frame: Frame, count: nat)
    requires frame.id < |h| && frame.points == h[frame.id]
    requires frame.nextPoint + count <= |frame.points|
    requires count > 0 ==> Follows(h, last, Cursor(frame.id, frame.nextPoint))
    ensures OnePath(h, last, Path(Chunk(frame, count)))
    ensures LastOf(last, Path(Chunk(frame, count)))
         == if count == 0 then last else Some(Cursor(frame.id, frame.nextPoint + count - 1))
    decreases count
  {
    if count > 0 {
      var next := frame.(nextPoint := frame.nextPoint + 1);
      assert Chunk(frame, count)[1..] == Chunk(next, count - 1);
      ChunkIsARun(h, Some(Cursor(frame.id, frame.nextPoint)), next, count - 1);
    }
  }

  /** A front frame that is not exhausted may emit its next point. */
  lemma FrontFollows(h: History, n: nat, queue: seq<Frame>, last: Option<Cursor>)
    requires Sound(h, n, queue, last) && queue != [] && !Exhausted(queue)
    ensures Follows(h, last, Cursor(queue[0].id, queue[0].nextPoint))
  {
  }

  /** Emitting `count` points of the front frame and moving its cursor. The frame must have been
      started before, unless this emits its first points. */
  lemma TracksChunk(h: History, n: nat, last: Option<Cursor>, queue: seq<Frame>, out: seq<Emit>,
                    played: Frame, count: nat)
    requires Tracks(h, n, last, queue, out) && queue != []
    requires queue[0].nextPoint + count <= |queue[0].points|
    requires played.id == queue[0].id && played.points == queue[0].points
    requires played.nextPoint == queue[0].nextPoint + count && played.playCount > 0
    requires count == 0 ==> queue[0].playCount > 0 && queue[0].nextPoint > 0
    ensures Tracks(h, n, last, [played] + queue[1..], out + Chunk(queue[0], count))
  {
    var chunk := Chunk(queue[0], count);
    var before := LastOf(last, Path(out));
    if count > 0 {
      FrontFollows(h, n, queue, before);
    }
    ChunkIsARun(h, before, queue[0], count);
    PathOfSum(out, chunk);
    OnePathOfSum(h, last, Path(out), Path(chunk));
    SoundAfterPlay(h, n, queue, before, played, count);
  }

  lemma SoundAfterPlay(h: History, n: nat, queue: seq<Frame>, before: Option<Cursor>, played: Frame, count: nat)
    requires Sound(h, n, queue, before) && queue != []
    requires queue[0].nextPoint + count <= |queue[0].points|
    requires played.id == queue[0].id && played.points == queue[0].points
    requires played.nextPoint == queue[0].nextPoint + count && played.playCount > 0
    requires count == 0 ==> queue[0].playCount > 0 && queue[0].nextPoint > 0
    ensures Sound(h, n, [played] + queue[1..],
                  if count == 0 then before else Some(Cursor(played.id, played.nextPoint - 1)))
  {
  }

  /** A front frame played to its end may be left for the next one. */
  lemma SoundAfterPop(h: History, n: nat, queue: seq<Frame>, last: Option<Cursor>)
    requires Sound(h, n, queue, last) && Exhausted(queue)
    ensures Sound(h, n, queue[1..], last)
  {
    assert queue[0].playCount > 0;
    WellFormedSuffix(queue, 1);
  }

  /** ... or rewound and played again. */
  lemma SoundAfterRewind(h: History, n: nat, queue: seq<Frame>, last: Option<Cursor>, again: Frame)
    requires Sound(h, n, queue, last) && Exhausted(queue)
    requires again.id == queue[0].id && again.points == queue[0].points
    requires again.nextPoint == 0 && again.playCount > 0
    ensures Sound(h, n, [again] + queue[1..], last)
  {
  }

  /** A frame that was never played may be dropped. */
  lemma {:induction false} SoundAfterDropStale(h: History, n: nat, queue: seq<Frame>, last: Option<Cursor>, estimate: Time)
    requires Sound(h, n, queue, last)
    ensures Sound(h, n, DropStale(queue, estimate), last)
    decreases |queue|
  {
    hide Due;
    if |queue| > 1 && queue[0].playCount == 0 && Due(queue[1], estimate) {
      WellFormedSuffix(queue, 1);
      SoundAfterDropStale(h, n, queue[1..], last, estimate);
    }
  }

  // ----- one turn of each loop keeps the invariant -----

  ghost predicate CrossTracks(h: History, n: nat, last: Option<Cursor>, t: Turn)
  {
    match t
    case Done(f) => Tracks(h, n, last, f.queue, f.out)
    case Again(q, o) => Tracks(h, n, last, q, o)
  }

  lemma TracksCross(h: History, n: nat, last: Option<Cursor>, queue: seq<Frame>, out: seq<Emit>,
                    maximum: nat, bridge: seq<LaserPoint>)
    requires Tracks(h, n, last, queue, out) && |out| <= maximum
    requires forall i :: 0 <= i < |bridge| ==> Dark(bridge[i])
    ensures CrossTracks(h, n, last, Cross(queue, out, maximum, bridge))
  {
    hide Tracks;
    var k := Min(maximum - |out|, |bridge|);
    TracksDark(h, n, last, queue, out, Transitions(bridge[..k]));
  }

  lemma PointTurnTracks(h: History, n: nat, last: Option<Cursor>, queue: seq<Frame>, out: seq<Emit>,
                        k: nat, call: PointCall)
    requires Tracks(h, n, last, queue, out) && queue != [] && |out| < call.maximum
    ensures CrossTracks(h, n, last, PointTurn(queue, out, k, call))
  {
    hide Path, OnePath, AllHonest, Cross, Bridge, Due, PlayTime, Resumes, Ordered, Genuine;
    var front := Started(queue[0], call.clock(2 * k + 1));
    var toAdd := Min(|front.points| - front.nextPoint, call.maximum - |out|);
    var played := front.(nextPoint := front.nextPoint + toAdd);
    var out1 := out + Chunk(front, toAdd);
    assert Chunk(front, toAdd) == Chunk(queue[0], toAdd);
    StartedFrontIsNew(h, n, queue, LastOf(last, Path(out)));
    TracksChunk(h, n, last, queue, out, played, toAdd);
    var queue1 := [played] + queue[1..];
    assert queue1[1..] == queue[1..];
    if Exhausted(queue1) {
      SoundAfterPop(h, n, queue1, LastOf(last, Path(out1)));
      var again := played.(nextPoint := 0, playCount := played.playCount + 1);
      SoundAfterRewind(h, n, queue1, LastOf(last, Path(out1)), again);
      assert Tracks(h, n, last, queue[1..], out1);
      assert Tracks(h, n, last, [again] + queue[1..], out1);
      if |out1| <= call.maximum {
        if |queue| > 1 {
          TracksCross(h, n, last, queue[1..], out1, call.maximum,
                      Bridge(Last(played.points), queue[1].points[0]));
        }
        TracksCross(h, n, last, [again] + queue[1..], out1, call.maximum,
                    Bridge(Last(played.points), played.points[0]));
      }
      TracksDark(h, n, last, queue[1..], out1, Blanks(Shortfall(call.minimum, |out1|)));
    }
  }

  lemma StartedFrontIsNew(h: History, n: nat, queue: seq<Frame>, last: Option<Cursor>)
    requires Sound(h, n, queue, last) && queue != []
    ensures queue[0].nextPoint == 0 || queue[0].playCount > 0
    ensures queue[0].points != []
  {
  }

  ghost predicate FrameTurnTracks(h: History, n: nat, last: Option<Cursor>, t: FrameTurn)
  {
    match t
    case Finish(r) => Tracks(h, n, last, r.filled.queue, r.filled.out)
    case Continue(q, o) => Tracks(h, n, last, q, o) && Path(o) == []
  }

  lemma TracksBlankSubmission(h: History, n: nat, last: Option<Cursor>, queue: seq<Frame>, call: FrameCall)
    requires Sound(h, n, queue, last)
    ensures var f := BlankSubmission(queue, call).filled;
            Tracks(h, n, last, f.queue, f.out)
  {
    hide Sound;
    NoContentNoPath(BlankSubmission(queue, call).filled.out);
  }

  /** The front frame of the frame loop after one chunk of it was copied. */
  lemma FrameTurnKeepsPath(h: History, n: nat, last: Option<Cursor>, queue: seq<Frame>, out: seq<Emit>,
                           call: FrameCall)
    requires Tracks(h, n, last, queue, out) && Path(out) == [] && |out| < call.maximum
    ensures FrameTurnTracks(h, n, last, FrameLoopTurn(queue, out, call))
  {
    hide Path, OnePath, AllHonest, Cross, Bridge, Due, Resumes, Ordered, Genuine, BlankSubmission;
    assert LastOf(last, Path(out)) == last;
    TracksBlankSubmission(h, n, last, queue, call);
    if queue != [] {
      StartedFrontIsNew(h, n, queue, last);
      if Exhausted(queue) {
        ExhaustedFrameTurn(h, n, last, queue, out, call);
      } else {
        var front := queue[0];
        var toCopy := Min(|front.points| - front.nextPoint, call.maximum);
        var counted :=
          if front.nextPoint == 0 then
            front.(firstPlayTime := if front.playCount == 0 then call.clock(1) else front.firstPlayTime,
                   playCount := front.playCount + 1)
          else front;
        TracksChunk(h, n, last, queue, out, counted.(nextPoint := front.nextPoint + toCopy), toCopy);
      }
    }
  }

  lemma ExhaustedFrameTurn(h: History, n: nat, last: Option<Cursor>, queue: seq<Frame>, out: seq<Emit>,
                           call: FrameCall)
    requires Tracks(h, n, last, queue, out) && Path(out) == [] && |out| < call.maximum
    requires Exhausted(queue) && (queue[0].playCount > 0 || queue[0].nextPoint > 0)
    ensures FrameTurnTracks(h, n, last, FrameLoopTurn(queue, out, call))
  {
    hide Path, OnePath, AllHonest, Bridge, Due, Resumes, Ordered, Genuine, BlankSubmission;
    SoundAfterPop(h, n, queue, last);
    var again := queue[0].(nextPoint := 0);
    assert queue[0].playCount > 0 by { ExhaustedWasStarted(h, n, queue, last); }
    SoundAfterRewind(h, n, queue, last, again);
    TracksBlankSubmission(h, n, last, queue[1..], call);
    if |queue| > 1 {
      var bridge := Bridge(Last(queue[0].points), queue[1].points[0]);
      BridgeIsDark(Last(queue[0].points), queue[1].points[0]);
      TracksCross(h, n, last, queue[1..], out, call.maximum, bridge);
      var drained := Transitions(bridge[..Min(call.maximum - |out|, |bridge|)]);
      PathOfSum(out, drained);
      NoContentNoPath(drained);
    }
  }

  lemma BridgeIsDark(from: LaserPoint, to: LaserPoint)
    ensures forall i :: 0 <= i < |Bridge(from, to)| ==> Dark(Bridge(from, to)[i])
  {
  }

  lemma ExhaustedWasStarted(h: History, n: nat, queue: seq<Frame>, last: Option<Cursor>)
    requires Sound(h, n, queue, last) && Exhausted(queue)
    ensures queue[0].playCount > 0
  {
  }

  // ----- whole calls -----

  lemma {:induction false} PointLoopTracks(h: History, n: nat, last: Option<Cursor>, queue: seq<Frame>,
                                           out: seq<Emit>, k: nat, call: PointCall)
    requires Tracks(h, n, last, queue, out) && queue != [] && |out| < call.maximum
    ensures var f := PointLoop(queue, out, k, call);
            Tracks(h, n, last, f.queue, f.out)
    decreases call.maximum - |out|, Exhausted(queue)
  {
    hide PointTurn, Path, OnePath, AllHonest, Resumes, Ordered, Genuine;
    PointTurnTracks(h, n, last, queue, out, k, call);
    var turn := PointTurn(queue, out, k, call);
    if turn.Again? {
      PointTurnGoesOn(queue, out, k, call);
      PointLoopTracks(h, n, last, turn.queue, turn.out, k + 1, call);
    }
  }

  lemma {:induction false} FrameLoopTracks(h: History, n: nat, last: Option<Cursor>, queue: seq<Frame>,
                                           out: seq<Emit>, call: FrameCall)
    requires Tracks(h, n, last, queue, out) && Path(out) == [] && |out| < call.maximum
    ensures var f := FrameLoop(queue, out, call).filled;
            Tracks(h, n, last, f.queue, f.out)
    decreases Exhausted(queue)
  {
    hide FrameLoopTurn, Path, OnePath, AllHonest, Resumes, Ordered, Genuine;
    FrameTurnKeepsPath(h, n, last, queue, out, call);
    var turn := FrameLoopTurn(queue, out, call);
    if turn.Continue? {
      FrameTurnGoesOn(queue, out, call);
      FrameLoopTracks(h, n, last, turn.queue, turn.out, call);
    }
  }

  ghost predicate DarkPoints(points: seq<LaserPoint>)
  {
    forall i :: 0 <= i < |points| ==> Dark(points[i])
  }

  lemma TracksFromStart(h: History, n: nat, last: Option<Cursor>, queue: seq<Frame>, dark: seq<Emit>)
    requires Sound(h, n, queue, last)
    requires forall i :: 0 <= i < |dark| ==> !dark[i].Content? && Dark(dark[i].sample)
    ensures Tracks(h, n, last, queue, dark) && Path(dark) == []
  {
    hide Sound;
    NoContentNoPath(dark);
  }

  lemma FillPointsTracks(h: History, n: nat, last: Option<Cursor>, queue: seq<Frame>,
                         transition: seq<LaserPoint>, call: PointCall)
    requires Sound(h, n, queue, last) && DarkPoints(transition) && call.maximum > 0
    ensures var f := FillPointsQueue(queue, transition, call);
            Tracks(h, n, last, f.queue, f.out)
  {
    hide Path, OnePath, AllHonest, Resumes, Ordered, Genuine, PointLoop, DropStale, Due;
    var k := Min(call.maximum, |transition|);
    var out := Transitions(transition[..k]);
    TracksFromStart(h, n, last, queue, out);
    TracksDark(h, n, last, queue, out, Blanks(call.minimum));
    if queue != [] && |out| < call.maximum {
      var live := DropStale(queue, call.estimate);
      SoundAfterDropStale(h, n, queue, last, call.estimate);
      TracksFromStart(h, n, last, live, out);
      TracksDark(h, n, last, live, out, Blanks(call.minimum));
      PointLoopTracks(h, n, last, live, out, 0, call);
    }
  }

  lemma FillFrameTracks(h: History, n: nat, last: Option<Cursor>, queue: seq<Frame>,
                        transition: seq<LaserPoint>, call: FrameCall)
    requires Sound(h, n, queue, last) && DarkPoints(transition) && call.maximum > 0
    ensures var f := FillFrameQueue(queue, transition, call).filled;
            Tracks(h, n, last, f.queue, f.out)
  {
    hide Path, OnePath, AllHonest, Resumes, Ordered, Genuine, FrameLoop, DropStale, Due;
    var k := Min(call.maximum, |transition|);
    var out := Transitions(transition[..k]);
    TracksFromStart(h, n, last, queue, out);
    TracksBlankSubmission(h, n, last, queue, call);
    if queue != [] && |out| < call.maximum {
      var live := DropStale(queue, call.estimate);
      SoundAfterDropStale(h, n, queue, last, call.estimate);
      TracksFromStart(h, n, last, live, out);
      FrameLoopTracks(h, n, last, live, out, call);
    }
  }

  // ----- leftover transition points -----

  /** Leftover transition points are dark, and lead to the first point of the front frame. */
  ghost predicate Leftover(queue: seq<Frame>, transition: seq<LaserPoint>)
  {
    && DarkPoints(transition)
    && (transition != [] ==> queue != [] && queue[0].nextPoint == 0)
  }

  lemma CrossLeftover(queue: seq<Frame>, out: seq<Emit>, maximum: nat, from: LaserPoint, to: LaserPoint)
    requires |out| <= maximum && queue != [] && queue[0].nextPoint == 0
    requires Cross(queue, out, maximum, Bridge(from, to)).Done?
    ensures var f := Cross(queue, out, maximum, Bridge(from, to)).result;
            Leftover(f.queue, f.transition)
  {
    BridgeIsDark(from, to);
  }

  lemma PointTurnLeftover(queue: seq<Frame>, out: seq<Emit>, k: nat, call: PointCall)
    requires WellFormed(queue) && queue != [] && |out| < call.maximum
    requires PointTurn(queue, out, k, call).Done?
    ensures var f := PointTurn(queue, out, k, call).result;
            Leftover(f.queue, f.transition)
  {
    hide Bridge, Cross, Due, PlayTime, Chunk;
    var front := Started(queue[0], call.clock(2 * k + 1));
    var toAdd := Min(|front.points| - front.nextPoint, call.maximum - |out|);
    var out1 := out + Chunk(front, toAdd);
    var played := front.(nextPoint := front.nextPoint + toAdd);
    var again := [played.(nextPoint := 0, playCount := played.playCount + 1)] + queue[1..];
    var last := Last(played.points);
    assert |out1| <= call.maximum;
    if Cross(again, out1, call.maximum, Bridge(last, played.points[0])).Done? {
      CrossLeftover(again, out1, call.maximum, last, played.points[0]);
    }
    if |queue| > 1 && Cross(queue[1..], out1, call.maximum, Bridge(last, queue[1].points[0])).Done? {
      CrossLeftover(queue[1..], out1, call.maximum, last, queue[1].points[0]);
    }
  }

  lemma {:induction false} PointLoopLeftover(queue: seq<Frame>, out: seq<Emit>, k: nat, call: PointCall)
    requires WellFormed(queue) && queue != [] && |out| < call.maximum
    ensures var f := PointLoop(queue, out, k, call);
            Leftover(f.queue, f.transition)
    decreases call.maximum - |out|, Exhausted(queue)
  {
    hide PointTurn, WellFormed, Leftover;
    var turn := PointTurn(queue, out, k, call);
    if turn.Done? {
      PointTurnLeftover(queue, out, k, call);
    } else {
      PointTurnGoesOn(queue, out, k, call);
      PointLoopLeftover(turn.queue, turn.out, k + 1, call);
    }
  }

  lemma FrameTurnLeftover(queue: seq<Frame>, out: seq<Emit>, call: FrameCall)
    requires WellFormed(queue) && |out| < call.maximum
    requires FrameLoopTurn(queue, out, call).Finish?
    ensures var f := FrameLoopTurn(queue, out, call).result.filled;
            Leftover(f.queue, f.transition)
  {
    hide Bridge, Cross, Due, Chunk;
    if |queue| > 1 && Exhausted(queue) {
      var last := Last(queue[0].points);
      if Cross(queue[1..], out, call.maximum, Bridge(last, queue[1].points[0])).Done? {
        CrossLeftover(queue[1..], out, call.maximum, last, queue[1].points[0]);
      }
    }
  }

  lemma {:induction false} FrameLoopLeftover(queue: seq<Frame>, out: seq<Emit>, call: FrameCall)
    requires WellFormed(queue) && |out| < call.maximum
    ensures var f := FrameLoop(queue, out, call).filled;
            Leftover(f.queue, f.transition)
    decreases Exhausted(queue)
  {
    hide FrameLoopTurn, WellFormed, Leftover;
    UnfoldFrameLoop(queue, out, call);
    var turn := FrameLoopTurn(queue, out, call);
    if turn.Finish? {
      FrameTurnLeftover(queue, out, call);
    } else {
      FrameLoopLeftover(turn.queue, turn.out, call);
    }
  }

  lemma FillPointsLeftover(queue: seq<Frame>, transition: seq<LaserPoint>, call: PointCall)
    requires WellFormed(queue) && Leftover(queue, transition) && call.maximum > 0
    ensures var f := FillPointsQueue(queue, transition, call);
            Leftover(f.queue, f.transition)
  {
    hide PointLoop, DropStale, Due;
    var k := Min(call.maximum, |transition|);
    if queue != [] && k < call.maximum {
      var live := DropStale(queue, call.estimate);
      WellFormedSuffix(queue, |queue| - |live|);
      PointLoopLeftover(live, Transitions(transition[..k]), 0, call);
    }
  }

  lemma FillFrameLeftover(queue: seq<Frame>, transition: seq<LaserPoint>, call: FrameCall)
    requires WellFormed(queue) && Leftover(queue, transition) && call.maximum > 0
    ensures var f := FillFrameQueue(queue, transition, call).filled;
            Leftover(f.queue, f.transition)
  {
    hide FrameLoop, DropStale, Due;
    var k := Min(call.maximum, |transition|);
    if queue != [] && k < call.maximum {
      var live := DropStale(queue, call.estimate);
      WellFormedSuffix(queue, |queue| - |live|);
      FrameLoopLeftover(live, Transitions(transition[..k]), call);
    }
  }

  // ----- runs -----

  /** The calls of a run; `reset` is not among them. `sendFrame` is two of them, since it asks and
      submits under separate locks: fills may come between. */
  datatype Op =
    | AskReady(budget: nat, minimumPerFrame: nat)
    | Submit(points: seq<LaserPoint>, time: Time)
    | TrySubmit(points: seq<LaserPoint>, time: Time, budget: nat, minimumPerFrame: nat)
    | PullPoints(pointRequest: PointRequest, rate: nat, hold: Time, clock: Clock)
    | PullFrame(frameRequest: FrameRequest, hold: Time, clock: Clock)

  ghost function SubmittedPoints(op: Op): seq<LaserPoint>
  {
    if op.Submit? || op.TrySubmit? then op.points else []
  }

  ghost function After(s: Sched, op: Op): (r: (Sched, seq<Emit>))
    requires WellFormed(s.All())
    ensures WellFormed(r.0.All())
  {
    match op
    case AskReady(_, _) => (s, [])
    case Submit(points, time) => (Enqueue(s, points, time), [])
    case TrySubmit(points, time, budget, m) => (TryEnqueue(s, points, time, budget, m), [])
    case PullPoints(request, rate, hold, clock) => PulledPoints(s, request, rate, hold, clock)
    case PullFrame(request, hold, clock) =>
      var r := PulledFrame(s, request, hold, clock);
      (r.0, r.1)
  }

  /** Everything a run emits, call after call. */
  ghost function Output(s: Sched, ops: seq<Op>): seq<Emit>
    requires WellFormed(s.All())
    decreases |ops|
  {
    if ops == [] then []
    else After(s, ops[0]).1 + Output(After(s, ops[0]).0, ops[1..])
  }

  /** The queue a run leaves. */
  ghost function StateAfter(s: Sched, ops: seq<Op>): (r: Sched)
    requires WellFormed(s.All())
    ensures WellFormed(r.All())
    decreases |ops|
  {
    if ops == [] then s else StateAfter(After(s, ops[0]).0, ops[1..])
  }

  /** The points of the frames a run accepts, in order. */
  ghost function Accepted(s: Sched, ops: seq<Op>): History
    requires WellFormed(s.All())
    decreases |ops|
  {
    if ops == [] then []
    else
      var next := After(s, ops[0]).0;
      (if next.accepted > s.accepted then [SubmittedPoints(ops[0])] else []) + Accepted(next, ops[1..])
  }

  /** The invariant between calls. */
  ghost predicate Consistent(h: History, s: Sched, last: Option<Cursor>)
  {
    && Sound(h, s.accepted, s.All(), last)
    && Leftover(s.frameQueue, s.pendingTransition)
  }

  lemma LeftoverWithPending(s: Sched)
    requires Leftover(s.frameQueue, s.pendingTransition)
    ensures Leftover(s.All(), s.pendingTransition)
  {
  }

  lemma SoundSnoc(h: History, n: nat, queue: seq<Frame>, last: Option<Cursor>, frame: Frame)
    requires Sound(h, n, queue, last) && n < |h|
    requires frame.id == n && frame.points == h[n] && frame.points != []
    requires frame.playCount == 0 && frame.nextPoint == 0
    ensures Sound(h, n + 1, queue + [frame], last)
  {
    var q := queue + [frame];
    WellFormedSnoc(queue, frame);
    forall i | 0 <= i < |q|
      ensures Genuine(h, n + 1, q[i])
    {
      assert i < |queue| ==> q[i] == queue[i] && Genuine(h, n, queue[i]);
    }
    forall i, j | 0 <= i < j < |q|
      ensures q[i].id < q[j].id
    {
      assert q[i] == queue[i] && Genuine(h, n, queue[i]);
      assert j < |queue| ==> q[j] == queue[j];
    }
  }

  lemma EnqueueStaysSound(h: History, s: Sched, last: Option<Cursor>, points: seq<LaserPoint>, time: Time)
    requires Consistent(h, s, last) && s.accepted < |h| && h[s.accepted] == points && points != []
    ensures Consistent(h, Enqueue(s, points, time), last)
  {
    hide Sound, WellFormed, DarkPoints;
    var frame := Frame(s.accepted, points, time, 0, 0, 0);
    assert Enqueue(s, points, time).All() == s.All() + [frame];
    SoundSnoc(h, s.accepted, s.All(), last, frame);
  }

  lemma PullPointsKeeps(h: History, s: Sched, last: Option<Cursor>, op: Op)
    requires Consistent(h, s, last) && op.PullPoints?
    ensures var r := After(s, op);
            && OnePath(h, last, Path(r.1)) && AllHonest(h, r.1)
            && Consistent(h, r.0, LastOf(last, Path(r.1)))
            && r.0.accepted == s.accepted
  {
    hide Sound, Path, OnePath, AllHonest, FillPointsQueue, WellFormed;
    SoundIsWellFormed(h, s.accepted, s.All(), last);
    var r := After(s, op);
    var request := op.pointRequest;
    LeftoverWithPending(s);
    NothingTracks(h, last);
    if request.maximum > 0 {
      var call := PointCall(request.minimum, request.maximum,
                            Estimate(request.renderTime, op.clock), op.rate, op.hold, op.clock);
      FillPointsTracks(h, s.accepted, last, s.All(), s.pendingTransition, call);
      FillPointsLeftover(s.All(), s.pendingTransition, call);
    }
    assert r.0.All() == r.0.frameQueue;
  }

  lemma PullFrameKeeps(h: History, s: Sched, last: Option<Cursor>, op: Op)
    requires Consistent(h, s, last) && op.PullFrame?
    ensures var r := After(s, op);
            && OnePath(h, last, Path(r.1)) && AllHonest(h, r.1)
            && Consistent(h, r.0, LastOf(last, Path(r.1)))
            && r.0.accepted == s.accepted
  {
    hide Sound, Path, OnePath, AllHonest, FillFrameQueue, WellFormed;
    SoundIsWellFormed(h, s.accepted, s.All(), last);
    var r := After(s, op);
    var request := op.frameRequest;
    LeftoverWithPending(s);
    NothingTracks(h, last);
    if request.maximum > 0 {
      var call := FrameCall(request.maximum, request.blankCount,
                            Estimate(request.renderTime, op.clock),
                            request.advanceWhenAvailable, request.repeatWhenIdle, op.hold, op.clock);
      FillFrameTracks(h, s.accepted, last, s.All(), s.pendingTransition, call);
      FillFrameLeftover(s.All(), s.pendingTransition, call);
    }
    assert r.0.All() == r.0.frameQueue;
  }

  lemma SoundIsWellFormed(h: History, n: nat, queue: seq<Frame>, last: Option<Cursor>)
    requires Sound(h, n, queue, last)
    ensures WellFormed(queue)
  {
  }

  lemma NothingTracks(h: History, last: Option<Cursor>)
    ensures Path([]) == [] && OnePath(h, last, []) && AllHonest(h, []) && LastOf(last, []) == last
  {
  }

  lemma {:induction false} RunKeepsPath(h: History, s: Sched, last: Option<Cursor>, ops: seq<Op>)
    requires Consistent(h, s, last) && WellFormed(s.All())
    requires s.accepted <= |h| && Accepted(s, ops) == h[s.accepted..]
    ensures OnePath(h, last, Path(Output(s, ops))) && AllHonest(h, Output(s, ops))
    ensures Consistent(h, StateAfter(s, ops), LastOf(last, Path(Output(s, ops))))
    decreases |ops|
  {
    hide Consistent, WellFormed, Path, OnePath, Honest, After;
    NothingTracks(h, last);
    if ops != [] {
      var r := After(s, ops[0]);
      var later := Output(r.0, ops[1..]);
      var last' := LastOf(last, Path(r.1));
      TakenFrame(h, s, ops);
      StepKeepsPath(h, s, last, ops[0], if r.0.accepted > s.accepted then 1 else 0);
      RunKeepsPath(h, r.0, last', ops[1..]);
      PathOfSum(r.1, later);
      OnePathOfSum(h, last, Path(r.1), Path(later));
    }
  }

  lemma TakenFrame(h: History, s: Sched, ops: seq<Op>)
    requires WellFormed(s.All()) && ops != []
    requires s.accepted <= |h| && Accepted(s, ops) == h[s.accepted..]
    ensures var next := After(s, ops[0]).0;
            if next.accepted > s.accepted then
              && s.accepted < |h| && h[s.accepted] == SubmittedPoints(ops[0])
              && Accepted(next, ops[1..]) == h[s.accepted + 1..]
            else Accepted(next, ops[1..]) == h[s.accepted..]
  {
    hide WellFormed, After;
    var next := After(s, ops[0]).0;
    if next.accepted > s.accepted {
      assert h[s.accepted] == h[s.accepted..][0] == SubmittedPoints(ops[0]);
      assert h[s.accepted + 1..] == h[s.accepted..][1..];
      assert Accepted(s, ops)[1..] == Accepted(next, ops[1..]);
    }
  }

  lemma StepKeepsPath(h: History, s: Sched, last: Option<Cursor>, op: Op, taken: nat)
    requires Consistent(h, s, last) && WellFormed(s.All())
    requires taken == if After(s, op).0.accepted > s.accepted then 1 else 0
    requires taken == 1 ==> s.accepted < |h| && h[s.accepted] == SubmittedPoints(op)
    ensures var r := After(s, op);
            && OnePath(h, last, Path(r.1)) && AllHonest(h, r.1)
            && Consistent(h, r.0, LastOf(last, Path(r.1)))
            && r.0.accepted == s.accepted + taken
  {
    hide Consistent, WellFormed, Path, OnePath, LastOf, QueueCost;
    NothingTracks(h, last);
    match op {
      case AskReady(_, _) =>
      case Submit(points, time) =>
        if points != [] { EnqueueStaysSound(h, s, last, points, time); }
      case TrySubmit(points, time, budget, m) =>
        if points != [] && QueueCost(s.All(), m) <= budget {
          EnqueueStaysSound(h, s, last, points, time);
        }
      case PullPoints(_, _, _, _) => PullPointsKeeps(h, s, last, op);
      case PullFrame(_, _, _) => PullFrameKeeps(h, s, last, op);
    }
  }

  /** The path of a run, read point by point: a frame that has been started is never left before
      its last point, the order of acceptance is never reversed, and so the only frames that are
      passed over are frames of which nothing was played. */
  lemma StartedFramesAreFinished(ops: seq<Op>, k: nat)
    requires k + 1 < |Path(Output(EMPTY, ops))|
    ensures var h, path := Accepted(EMPTY, ops), Path(Output(EMPTY, ops));
            GoesOn(h, path[k], path[k + 1])
  {
    hide Path, OnePath, Output, Accepted, GoesOn, AllHonest, Consistent;
    EveryRunFollowsOnePath(ops);
    NeighboursGoOn(Accepted(EMPTY, ops), Path(Output(EMPTY, ops)), k);
  }

  /** From `a` to `b`: on inside a frame, or from the end of a frame to its own start or to the start
      of a later frame. */
  ghost predicate GoesOn(h: History, a: Cursor, b: Cursor)
  {
    && Exists(h, a)
    && (|| (b.id == a.id && b.index == a.index + 1 < |h[a.id]|)
        || (b.id == a.id && EndsFrame(h, a) && b.index == 0)
        || (b.id > a.id && EndsFrame(h, a) && b.index == 0))
  }

  lemma NeighboursGoOn(h: History, path: seq<Cursor>, k: nat)
    requires OnePath(h, None, path) && k + 1 < |path|
    ensures GoesOn(h, path[k], path[k + 1])
  {
    hide OnePath;
    NeighboursFollow(h, None, path, k);
    NeighboursFollow(h, None, path, k + 1);
  }

  /** Over every run from an empty queue: the content points form one path through the accepted
      frames, each carries the sample it names, and everything else emitted is dark. */
  lemma EveryRunFollowsOnePath(ops: seq<Op>)
    ensures WellFormed(EMPTY.All())
    ensures var h, out := Accepted(EMPTY, ops), Output(EMPTY, ops);
            OnePath(h, None, Path(out)) && AllHonest(h, out)
    ensures Consistent(Accepted(EMPTY, ops), StateAfter(EMPTY, ops),
                       LastOf(None, Path(Output(EMPTY, ops))))
  {
    hide Path, OnePath, AllHonest, After, Output, Accepted, StateAfter;
    var h := Accepted(EMPTY, ops);
    assert EMPTY.All() == [];
    assert h[0..] == h;
    RunKeepsPath(h, EMPTY, None, ops);
  }
}
