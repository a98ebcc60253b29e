/** The last stage before a point leaves the host: startup blanking, disarm blanking and the scanner
sync delay line of src/core/LaserControllerStreaming.cpp.

Each public call is one atomic step. Durations are real numbers of milliseconds. */
module PostProcessor {
  import opened Arithmetic
  import opened LaserPoints

  /** Everything the post-processor remembers. `syncTime` is in ten-thousandths of a second. */
  datatype Post = Post(armed: bool, startupBlanks: nat, shutdownBlanks: nat,
                       lastX: real, lastY: real, delayLine: seq<LaserPoint>,
                       syncEnabled: bool, suppressed: bool, syncTime: real, rate: nat)

  const INITIAL := Post(false, 0, 0, 0.0, 0.0, [], true, false, 2.0, 30000)

  /** Points that play in `millis`, rounded to nearest. */
  function MillisToPoints(millis: real, rate: nat): nat
  {
    if rate == 0 || millis <= 0.0 then 0
    else
      var rawPoints := millis / 1000.0 * rate as real;
      var rounded := (rawPoints + 0.5).Floor;
      if rounded <= 0 then 0 else Min(rounded, INT_MAX)
  }

  /** Length of the delay line. */
  function Shift(st: Post): nat
  {
    MillisToPoints((if st.syncTime < 0.0 then 0.0 else st.syncTime) * 0.1, st.rate)
  }

  function Blacked(p: LaserPoint): LaserPoint { p.(r := 0.0, g := 0.0, b := 0.0) }

  function Coloured(p: LaserPoint, colour: LaserPoint): LaserPoint
  {
    p.(r := colour.r, g := colour.g, b := colour.b)
  }

  // ----- the three stages -----

  function StartupBlanked(blanks: nat, points: seq<LaserPoint>): (out: seq<LaserPoint>)
    ensures |out| == |points|
  {
    seq(|points|, i requires 0 <= i < |points| => if i < blanks then Blacked(points[i]) else points[i])
  }

  function ShutDown(blanks: nat, x: real, y: real, points: seq<LaserPoint>): (out: seq<LaserPoint>)
    ensures |out| == |points|
  {
    seq(|points|, i requires 0 <= i < |points| =>
      Blacked(points[i]).(x := if i < blanks then x else 0.0, y := if i < blanks then y else 0.0))
  }

  /** The delay line brought to length k: cut at the back, or padded with default points. */
  function Resized(line: seq<LaserPoint>, k: nat): (r: seq<LaserPoint>)
    ensures |r| == k
  {
    if k <= |line| then line[..k] else line + seq(k - |line|, i => DEFAULT_POINT)
  }

  /** Every point takes the colour that stands |line| places before it. */
  function Delayed(line: seq<LaserPoint>, points: seq<LaserPoint>): (out: seq<LaserPoint>)
    ensures |out| == |points|
  {
    seq(|points|, i requires 0 <= i < |points| => Coloured(points[i], (line + points)[i]))
  }

  /** Startup and shutdown blanking; an armed block also records its last position. */
  function Shaped(st: Post, points: seq<LaserPoint>): (r: (Post, seq<LaserPoint>))
    ensures |r.1| == |points|
  {
    var blanked := StartupBlanked(st.startupBlanks, points);
    var st1 := st.(startupBlanks := st.startupBlanks - Min(st.startupBlanks, |points|));
    if !st.armed then
      (st1.(shutdownBlanks := st.shutdownBlanks - Min(st.shutdownBlanks, |points|)),
       ShutDown(st.shutdownBlanks, st.lastX, st.lastY, blanked))
    else if points != [] then
      (st1.(lastX := blanked[|points| - 1].x, lastY := blanked[|points| - 1].y), blanked)
    else (st1, blanked)
  }

  /** Scanner sync. */
  function Synced(st: Post, points: seq<LaserPoint>): (r: (Post, seq<LaserPoint>))
    ensures |r.1| == |points|
  {
    if st.suppressed || !st.syncEnabled || Shift(st) == 0 then (st.(delayLine := []), points)
    else
      var line := Resized(st.delayLine, Shift(st));
      (st.(delayLine := (line + points)[|points|..]), Delayed(line, points))
  }

  function Process(st: Post, points: seq<LaserPoint>): (r: (Post, seq<LaserPoint>))
    ensures |r.1| == |points|
  {
    var shaped := Shaped(st, points);
    Synced(shaped.0, shaped.1)
  }

  function AfterResetStartup(st: Post): Post
  {
    st.(startupBlanks := MillisToPoints(1.0, st.rate), delayLine := [])
  }

  function AfterResetShutdown(st: Post): Post
  {
    var syncPoints := if st.syncEnabled then Shift(st) else 0;
    st.(shutdownBlanks := syncPoints + MillisToPoints(1.0, st.rate), delayLine := [])
  }

  function AfterSetArmed(st: Post, state: bool): Post
  {
    var st1 := st.(armed := state);
    if state && !st.armed then AfterResetStartup(st1)
    else if !state && st.armed then AfterResetShutdown(st1)
    else st1
  }

  /** One push and one pop: the window moves on by one, and what comes out colours point i. */
  lemma DelayStep(line: seq<LaserPoint>, points: seq<LaserPoint>, i: nat)
    requires line != [] && i < |points|
    ensures var all := line + points;
            var pushed := all[i..i + |line|] + [points[i]];
            && pushed[1..] == all[i + 1..i + 1 + |line|]
            && Delayed(line, points)[i] == Coloured(points[i], pushed[0])
  {
    var all := line + points;
    assert all[i + |line|] == points[i];
  }

  // ----- the class -----

  class Streaming {
    var armed: bool
    var startupBlanks: nat
    var shutdownBlanks: nat
    var lastX: real
    var lastY: real
    var delayLine: seq<LaserPoint>
    var syncEnabled: bool
    var suppressed: bool
    var syncTime: real
    var rate: nat

    ghost function State(): Post
      reads this
    {
      Post(armed, startupBlanks, shutdownBlanks, lastX, lastY, delayLine,
           syncEnabled, suppressed, syncTime, rate)
    }

    constructor ()
      ensures State() == INITIAL
    {
      armed, startupBlanks, shutdownBlanks, lastX, lastY := false, 0, 0, 0.0, 0.0;
      delayLine, syncEnabled, suppressed, syncTime, rate := [], true, false, 2.0, 30000;
    }

    method ResetStartupBlank()
      modifies this
      ensures State() == AfterResetStartup(old(State()))
    {
      startupBlanks := MillisToPoints(1.0, rate);
      delayLine := [];
    }

    method ResetShutdownBlank()
      modifies this
      ensures State() == AfterResetShutdown(old(State()))
    {
      var ten := if syncEnabled then (if syncTime < 0.0 then 0.0 else syncTime) else 0.0;
      var syncPoints := MillisToPoints(ten * 0.1, rate);
      var dwellPoints := MillisToPoints(1.0, rate);
      shutdownBlanks := syncPoints + dwellPoints;
      delayLine := [];
    }

    method SetArmed(state: bool)
      modifies this
      ensures State() == AfterSetArmed(old(State()), state)
    {
      var wasArmed := armed;
      armed := state;
      if state && !wasArmed {
        ResetStartupBlank();
      }
      if !state && wasArmed {
        ResetShutdownBlank();
      }
    }

    method SetPointRate(newRate: nat)
      modifies this`rate
      ensures State() == old(State()).(rate := newRate)
    {
      rate := newRate;
    }

    method SetScannerSync(offset: real)
      modifies this`syncTime
      ensures State() == old(State()).(syncTime := if offset < 0.0 then 0.0 else offset)
    {
      syncTime := if offset < 0.0 then 0.0 else offset;
    }

    method SetScannerSyncEnabled(enabled: bool)
      modifies this`syncEnabled, this`delayLine
      ensures State() == old(State()).(syncEnabled := enabled,
                           delayLine := if old(syncEnabled) != enabled then [] else old(delayLine))
    {
      if syncEnabled != enabled {
        delayLine := [];
      }
      syncEnabled := enabled;
    }

    method SetSuppressed(s: bool)
      modifies this`suppressed, this`delayLine
      ensures State() == old(State()).(suppressed := s,
                           delayLine := if old(suppressed) != s then [] else old(delayLine))
    {
      if suppressed != s {
        delayLine := [];
      }
      suppressed := s;
    }

    method ApplyStartupBlank(points: array<LaserPoint>)
      modifies this`startupBlanks, points
      ensures points[..] == StartupBlanked(old(startupBlanks), old(points[..]))
      ensures startupBlanks == old(startupBlanks) - Min(old(startupBlanks), points.Length)
    {
      var remaining := startupBlanks;
      if remaining > 0 {
        var i := 0;
        while i < points.Length && remaining > 0
          invariant 0 <= i <= points.Length && remaining == old(startupBlanks) - i
          invariant forall j :: 0 <= j < i ==> points[j] == Blacked(old(points[j]))
          invariant forall j :: i <= j < points.Length ==> points[j] == old(points[j])
        {
          points[i] := Blacked(points[i]);
          remaining := remaining - 1;
          i := i + 1;
        }
        startupBlanks := remaining;
      }
      assert points[..] == StartupBlanked(old(startupBlanks), old(points[..]));
    }

    method ApplyShutdown(points: array<LaserPoint>)
      modifies this`shutdownBlanks, points
      ensures points[..] == ShutDown(old(shutdownBlanks), lastX, lastY, old(points[..]))
      ensures shutdownBlanks == old(shutdownBlanks) - Min(old(shutdownBlanks), points.Length)
    {
      var remaining := shutdownBlanks;
      for i := 0 to points.Length
        invariant remaining == old(shutdownBlanks) - Min(old(shutdownBlanks), i)
        invariant forall j :: 0 <= j < i ==>
                    points[j] == ShutDown(old(shutdownBlanks), lastX, lastY, old(points[..]))[j]
        invariant forall j :: i <= j < points.Length ==> points[j] == old(points[j])
      {
        points[i] := Blacked(points[i]);
        if remaining > 0 {
          points[i] := points[i].(x := lastX, y := lastY);
          remaining := remaining - 1;
        } else {
          points[i] := points[i].(x := 0.0, y := 0.0);
        }
      }
      shutdownBlanks := remaining;
    }

    method ApplyDelay(points: array<LaserPoint>)
      requires delayLine != []
      modifies this`delayLine, points
      ensures points[..] == Delayed(old(delayLine), old(points[..]))
      ensures delayLine == (old(delayLine) + old(points[..]))[points.Length..]
    {
      hide Delayed, Coloured;
      ghost var line0, in0 := delayLine, points[..];
      for i := 0 to points.Length
        invariant delayLine == (line0 + in0)[i..i + |line0|]
        invariant forall j :: 0 <= j < i ==> points[j] == Delayed(line0, in0)[j]
        invariant forall j :: i <= j < points.Length ==> points[j] == in0[j]
      {
        DelayStep(line0, in0, i);
        var delayed := PushAndPop(points[i]);
        points[i] := delayed;
      }
      assert points[..] == Delayed(line0, in0);
    }

    /** Queues a point and gives it the colour that has waited longest. */
    method PushAndPop(p: LaserPoint) returns (q: LaserPoint)
      modifies this`delayLine
      ensures var pushed := old(delayLine) + [p];
              delayLine == pushed[1..] && q == Coloured(p, pushed[0])
    {
      delayLine := delayLine + [p];
      q := Coloured(p, delayLine[0]);
      delayLine := delayLine[1..];
    }

    method PostProcess(points: array<LaserPoint>)
      modifies this, points
      ensures (State(), points[..]) == Process(old(State()), old(points[..]))
    {
      hide StartupBlanked, ShutDown, Delayed, Resized, MillisToPoints;
      ApplyStartupBlank(points);
      if !armed {
        ApplyShutdown(points);
      } else if points.Length > 0 {
        lastX, lastY := points[points.Length - 1].x, points[points.Length - 1].y;
      }
      if suppressed || !syncEnabled {
        delayLine := [];
        return;
      }
      var shiftPointCount := MillisToPoints((if syncTime < 0.0 then 0.0 else syncTime) * 0.1, rate);
      delayLine := Resized(delayLine, shiftPointCount);
      if shiftPointCount > 0 {
        ApplyDelay(points);
      }
    }
  }
}
