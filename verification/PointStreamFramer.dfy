/** Partition of a pulled point stream into frames: src/core/PointStreamFramer.cpp.

The callback is a function of how many pulls came before, the absolute index asked for, and how many
points are wanted, so it may answer every pull differently. `pulled` and `emitted` are the history
since the last reset. */
module PointStreamFramer {
  import opened Arithmetic
  import opened BoundarySearch
  import opened LaserPoints
  import opened Options

  type Source = (nat, nat, nat) -> seq<LaserPoint>

  const PREPARED_FRAME_RESERVE: nat := 1

  function Flatten(frames: seq<seq<LaserPoint>>): seq<LaserPoint>
  {
    if frames == [] then [] else frames[0] + Flatten(frames[1..])
  }

  lemma {:induction false} FlattenSum(a: seq<seq<LaserPoint>>, b: seq<seq<LaserPoint>>)
    ensures Flatten(a + b) == Flatten(a) + Flatten(b)
    decreases |a|
  {
    if a == [] {
      assert a + b == b;
    } else {
      FlattenSum(a[1..], b);
      assert (a + b)[1..] == a[1..] + b;
      calc {
        Flatten(a + b);
        a[0] + (Flatten(a[1..]) + Flatten(b));
        (a[0] + Flatten(a[1..])) + Flatten(b);
      }
    }
  }

  lemma FlattenOne(frame: seq<LaserPoint>)
    ensures Flatten([frame]) == frame
  {
    assert [frame][1..] == [];
    assert frame + [] == frame;
  }

  ghost predicate Respectful(source: Source)
  {
    forall n: nat, index: nat, count: nat :: |source(n, index, count)| <= count
  }

  /** A source that always delivers what it is asked for. */
  ghost predicate Delivers(source: Source)
  {
    forall n: nat, index: nat, count: nat :: |source(n, index, count)| == count
  }

  ghost predicate SizesWithin(frames: seq<seq<LaserPoint>>, most: nat)
  {
    forall i :: 0 <= i < |frames| ==> 1 <= |frames[i]| <= most
  }

  /** The natural boundary, 0 if there is none, and where the stream is cut: there, or by force at
      nominal size. */
  method NextCut(points: seq<LaserPoint>, cfg: Settings) returns (splitIndex: nat, cut: nat)
    requires cfg.nominal > 0 && cfg.maxSize > 0 && points != []
    ensures IsNaturalBoundary(points, cfg, splitIndex)
    ensures cut == if splitIndex > 0 then splitIndex else Min(cfg.nominal, |points|)
    ensures 1 <= cut <= |points|
    ensures cfg.nominal <= cfg.maxSize ==> cut <= cfg.maxSize
  {
    hide IsNaturalBoundary, ClosesLoop, IsTransition, LoopScore;
    splitIndex := FindNaturalBoundary(points, cfg);
    BoundaryCutsInTheDark(points, cfg, splitIndex);
    cut := if splitIndex > 0 then splitIndex else Min(cfg.nominal, |points|);
  }

  class Framer {
    var accumulator: seq<LaserPoint>
    var preparedFrames: seq<seq<LaserPoint>>
    var preparedPointCount: nat
    var anchorX: real
    var anchorY: real
    var anchorSet: bool
    var nominalFrameSize: nat
    var maxFrameSize: nat
    var virtualBufferTarget: nat
    var transportBufferedPoints: nat
    var consecutiveForceEmits: nat
    var totalPointsConsumed: nat
    const dist: Metric

    var pulls: nat
    ghost var pulled: seq<LaserPoint>
    ghost var emitted: seq<seq<LaserPoint>>

    /** Conservation: what was pulled is what was emitted, what is prepared and what is accumulated,
        in this order; the two counters are exact. */
    ghost predicate Valid()
      reads this
    {
      && nominalFrameSize >= 1 && maxFrameSize >= 1
      && pulled == Flatten(emitted) + Flatten(preparedFrames) + accumulator
      && preparedPointCount == |Flatten(preparedFrames)|
      && totalPointsConsumed == |pulled|
      && (forall i :: 0 <= i < |preparedFrames| ==> preparedFrames[i] != [])
    }

    function Lookahead(): (n: nat)
      reads this
      ensures n <= Min(nominalFrameSize * 4, maxFrameSize)
      ensures nominalFrameSize >= 1 && maxFrameSize >= 1 ==> n >= 1
      ensures consecutiveForceEmits < 3 ==> n == 4 * nominalFrameSize || n == maxFrameSize < 4 * nominalFrameSize
      ensures consecutiveForceEmits >= 3 ==>
                n == maxFrameSize || 11 * nominalFrameSize - 10 < 10 * n <= 11 * nominalFrameSize
    {
      if consecutiveForceEmits >= FORCE_EMIT_FALLBACK
      then Min((nominalFrameSize as real * 1.1).Floor as nat, maxFrameSize)
      else Min(nominalFrameSize * 4, maxFrameSize)
    }

    /** Everything between the source and the beam: what the transport holds, what is prepared, and what
        is accumulated. */
    function Backlog(): nat
      reads this
    {
      transportBufferedPoints + preparedPointCount + |accumulator|
    }

    /** The search window is full and the backlog has reached its target. */
    ghost predicate Supplied()
      reads this
    {
      |accumulator| >= Lookahead() && Backlog() >= virtualBufferTarget
    }

    /** The least number of points to pull so that the search window is full and the backlog, counting
        what the transport holds, reaches its target. */
    function PullCount(): (n: nat)
      reads this
      ensures n > 0 ==> |accumulator| + n <= Max(virtualBufferTarget, Lookahead())
      ensures |accumulator| + n >= Lookahead() && Backlog() + n >= virtualBufferTarget
      ensures n > 0 ==> |accumulator| + n == Lookahead() || Backlog() + n == Max(virtualBufferTarget, Lookahead())
    {
      var accumulatorDeficit :=
        if |accumulator| < Lookahead() then Lookahead() - |accumulator| else 0;
      var totalBuffered := Backlog();
      var desiredBuffered := Max(virtualBufferTarget, Lookahead());
      var backlogDeficit :=
        if totalBuffered < desiredBuffered then desiredBuffered - totalBuffered else 0;
      Max(accumulatorDeficit, backlogDeficit)
    }

    /** The most the accumulator may hold. */
    ghost function Cap(): nat
      reads this
    {
      Max(virtualBufferTarget, Min(nominalFrameSize * 4, maxFrameSize))
    }

    ghost predicate WithinBounds()
      reads this
    {
      && nominalFrameSize <= maxFrameSize
      && |accumulator| <= Cap()
      && SizesWithin(preparedFrames, maxFrameSize)
    }

    /** Nothing but the settings is left as it was. */
    twostate predicate SameSettings()
      reads this
    {
      && nominalFrameSize == old(nominalFrameSize)
      && maxFrameSize == old(maxFrameSize)
      && virtualBufferTarget == old(virtualBufferTarget)
      && transportBufferedPoints == old(transportBufferedPoints)
    }

    constructor (dist: Metric)
      ensures Valid() && WithinBounds()
      ensures pulled == [] && emitted == [] && this.dist == dist
      ensures nominalFrameSize == 300 && maxFrameSize == 4095
    {
      this.dist := dist;
      accumulator, preparedFrames, preparedPointCount := [], [], 0;
      anchorX, anchorY, anchorSet := 0.0, 0.0, false;
      nominalFrameSize, maxFrameSize := 300, 4095;
      virtualBufferTarget, transportBufferedPoints := 0, 0;
      consecutiveForceEmits, totalPointsConsumed := 0, 0;
      pulls, pulled, emitted := 0, [], [];
    }

    method SetNominalFrameSize(size: nat)
      requires Valid()
      modifies this`nominalFrameSize
      ensures Valid() && nominalFrameSize == Max(size, 1)
    {
      nominalFrameSize := Max(size, 1);
    }

    method SetMaxFrameSize(size: nat)
      requires Valid()
      modifies this`maxFrameSize
      ensures Valid() && maxFrameSize == Max(size, 1)
    {
      maxFrameSize := Max(size, 1);
    }

    method SetVirtualBufferTarget(size: nat)
      requires Valid()
      modifies this`virtualBufferTarget
      ensures Valid() && virtualBufferTarget == size
    {
      virtualBufferTarget := size;
    }

    method SetTransportBufferedPoints(size: nat)
      requires Valid()
      modifies this`transportBufferedPoints
      ensures Valid() && transportBufferedPoints == size
    {
      transportBufferedPoints := size;
    }

    method BufferedPointCount() returns (count: nat)
      requires Valid()
      ensures count == |pulled| - |Flatten(emitted)|
    {
      count := |accumulator| + preparedPointCount;
    }

    method Reset()
      requires Valid()
      modifies this
      ensures Valid() && pulled == [] && emitted == []
      ensures accumulator == [] && preparedFrames == []
      ensures virtualBufferTarget == 0 && transportBufferedPoints == 0
      ensures !anchorSet && anchorX == anchorY == 0.0 && consecutiveForceEmits == 0
      ensures nominalFrameSize == old(nominalFrameSize) && maxFrameSize == old(maxFrameSize)
    {
      Discard();
      anchorX, anchorY, anchorSet := 0.0, 0.0, false;
      virtualBufferTarget, transportBufferedPoints := 0, 0;
      consecutiveForceEmits, pulls := 0, 0;
    }

    /** Drops every point held and every count of them. */
    method Discard()
      requires Valid()
      modifies this`accumulator, this`preparedFrames, this`preparedPointCount
      modifies this`totalPointsConsumed, this`pulled, this`emitted
      ensures Valid() && pulled == [] && emitted == []
      ensures accumulator == [] && preparedFrames == []
    {
      accumulator, preparedFrames, preparedPointCount := [], [], 0;
      totalPointsConsumed, pulled, emitted := 0, [], [];
    }

    /** Asks for exactly `count` points from the next absolute index on, or for nothing when that is
        0; fewer or more may come. */
    method PullPoints(source: Source, firstIndex: nat, count: nat)
      requires Valid()
      modifies this`accumulator, this`totalPointsConsumed, this`pulls, this`pulled
      ensures Valid()
      ensures var batch := if count == 0 then [] else source(old(pulls), firstIndex + |old(pulled)|, count);
              && accumulator == old(accumulator) + batch
              && pulled == old(pulled) + batch
      ensures pulls == old(pulls) + if count == 0 then 0 else 1
    {
      if count == 0 {
        return;
      }
      var batch := source(pulls, firstIndex + totalPointsConsumed, count);
      accumulator := accumulator + batch;
      totalPointsConsumed := totalPointsConsumed + |batch|;
      pulls, pulled := pulls + 1, pulled + batch;
    }

    /** What the boundary search reads; the anchor defaults to the first accumulated point. */
    ghost function SearchSettings(): Settings
      reads this
    {
      var anchored := anchorSet || accumulator == [];
      Settings(nominalFrameSize, maxFrameSize, consecutiveForceEmits,
               BLANK_POINT.(x := if anchored then anchorX else accumulator[0].x,
                            y := if anchored then anchorY else accumulator[0].y),
               dist)
    }

    /** Cuts one frame off the accumulator, at a natural boundary or by force at nominal size. The next
        anchor is the first point left. */
    method ExtractOneFrame() returns (ok: bool, frame: seq<LaserPoint>)
      requires nominalFrameSize >= 1 && maxFrameSize >= 1
      modifies this`accumulator, this`anchorX, this`anchorY, this`anchorSet, this`consecutiveForceEmits
      ensures ok == (old(accumulator) != []) == (frame != [])
      ensures frame + accumulator == old(accumulator)
      ensures nominalFrameSize <= maxFrameSize ==> |frame| <= maxFrameSize
      ensures ok ==> IsNaturalBoundary(old(accumulator), old(SearchSettings()),
                                       if consecutiveForceEmits == 0 then |frame| else 0)
      ensures ok && consecutiveForceEmits != 0 ==> |frame| == Min(nominalFrameSize, |old(accumulator)|)
      ensures ok ==> AnchoredAtFront()
    {
      hide IsNaturalBoundary;
      if accumulator == [] {
        return false, [];
      }
      ghost var settings := SearchSettings();
      if !anchorSet {
        anchorX, anchorY, anchorSet := accumulator[0].x, accumulator[0].y, true;
      }
      var cfg := Settings(nominalFrameSize, maxFrameSize, consecutiveForceEmits,
                          BLANK_POINT.(x := anchorX, y := anchorY), dist);
      assert cfg == settings;
      var splitIndex, cut := NextCut(accumulator, cfg);
      frame := accumulator[..cut];
      accumulator := accumulator[cut..];
      consecutiveForceEmits := if splitIndex > 0 then 0 else consecutiveForceEmits + 1;
      Reanchor();
      ok := true;
    }

    ghost predicate AnchoredAtFront()
      reads this
    {
      if accumulator == [] then !anchorSet
      else anchorSet && anchorX == accumulator[0].x && anchorY == accumulator[0].y
    }

    method Reanchor()
      requires anchorSet
      modifies this`anchorX, this`anchorY, this`anchorSet
      ensures AnchoredAtFront()
    {
      if accumulator != [] {
        anchorX, anchorY := accumulator[0].x, accumulator[0].y;
      } else {
        anchorSet := false;
      }
    }

    method EnsurePreparedFrames(source: Source, firstIndex: nat, desired: nat)
      requires Valid()
      modifies this`accumulator, this`anchorX, this`anchorY, this`anchorSet,
               this`consecutiveForceEmits, this`totalPointsConsumed, this`pulls, this`pulled,
               this`preparedFrames, this`preparedPointCount
      ensures Valid() && old(pulled) <= pulled
      ensures old(preparedFrames) <= preparedFrames
      ensures old(WithinBounds()) && Respectful(source) ==> WithinBounds()
      ensures |preparedFrames| >= desired || (accumulator == [] && !Delivers(source))
    {
      hide Flatten, Delivers;
      while |preparedFrames| < desired
        invariant Valid() && old(pulled) <= pulled
        invariant old(preparedFrames) <= preparedFrames
        invariant old(WithinBounds()) && Respectful(source) ==> WithinBounds()
        decreases desired - |preparedFrames|
      {
        TopUp(source, firstIndex);
        if accumulator == [] {
          return;
        }
        PrepareOne();
      }
    }

    /** What comes before every cut: with a source that delivers, the window is full and the backlog
        reaches its target. */
    method TopUp(source: Source, firstIndex: nat)
      requires Valid()
      modifies this`accumulator, this`totalPointsConsumed, this`pulls, this`pulled
      ensures Valid() && old(pulled) <= pulled
      ensures Delivers(source) ==> Supplied() && accumulator != []
      ensures |accumulator| <= Max(|old(accumulator)|, Cap()) || !Respectful(source)
    {
      hide Flatten;
      var pullCount := PullCount();
      if pullCount > 0 {
        PullPoints(source, firstIndex, pullCount);
      }
    }

    method PrepareOne()
      requires Valid() && accumulator != []
      modifies this`accumulator, this`anchorX, this`anchorY, this`anchorSet,
               this`consecutiveForceEmits, this`preparedFrames, this`preparedPointCount
      ensures Valid()
      ensures |preparedFrames| == |old(preparedFrames)| + 1 && old(preparedFrames) <= preparedFrames
      ensures old(WithinBounds()) ==> WithinBounds()
    {
      hide Flatten, IsNaturalBoundary, SearchSettings, AnchoredAtFront;
      var ok, frame := ExtractOneFrame();
      preparedPointCount := preparedPointCount + |frame|;
      FlattenSum(preparedFrames, [frame]);
      FlattenOne(frame);
      assert Flatten(emitted) + (Flatten(preparedFrames) + frame) + accumulator
          == Flatten(emitted) + Flatten(preparedFrames) + (frame + accumulator);
      preparedFrames := preparedFrames + [frame];
    }

    /** Emits the next frame. With a callback that respects its maximum and settings that were within
        bounds, the frame has between 1 and maxFrameSize points. */
    method ExtractFrame(source: Option<Source>, firstIndex: nat)
      returns (ok: bool, frame: seq<LaserPoint>)
      requires Valid()
      modifies this
      ensures Valid() && SameSettings()
      ensures ok <==> frame != []
      ensures old(pulled) <= pulled
      ensures emitted == if ok then old(emitted) + [frame] else old(emitted)
      ensures Flatten(emitted) <= pulled
      ensures !ok ==> source.None? || (accumulator == [] && !Delivers(source.value))
      ensures source.Some? && Delivers(source.value) ==> ok && |preparedFrames| >= 1
      ensures source.Some? && old(WithinBounds()) && Respectful(source.value) ==>
                WithinBounds() && |frame| <= maxFrameSize
    {
      hide Flatten, Respectful, Delivers;
      assert Flatten(emitted) <= pulled;
      if source.None? {
        return false, [];
      }
      EnsurePreparedFrames(source.value, firstIndex, 1 + PREPARED_FRAME_RESERVE);
      if preparedFrames == [] {
        return false, [];
      }
      frame := preparedFrames[0];
      FlattenSum([frame], preparedFrames[1..]);
      assert [frame] + preparedFrames[1..] == preparedFrames;
      FlattenOne(frame);
      FlattenSum(emitted, [frame]);
      preparedPointCount := preparedPointCount - |frame|;
      assert Flatten(emitted) + (frame + Flatten(preparedFrames[1..])) + accumulator
          == (Flatten(emitted) + frame) + Flatten(preparedFrames[1..]) + accumulator;
      preparedFrames := preparedFrames[1..];
      emitted := emitted + [frame];
      ok := true;
    }
  }
}
