/** What the post-processor guarantees over whole sequences of calls: the cut into blocks does not
matter, colour is delayed by exactly the shift, arming starts dark, and disarmed output is dark
and parks the beam. */
module PostProcessorLaws {
  import opened Arithmetic
  import opened LaserPoints
  import opened PostProcessor

  // ----- blocks -----

  lemma BlankedSplits(n: nat, a: seq<LaserPoint>, b: seq<LaserPoint>)
    ensures StartupBlanked(n, a + b) == StartupBlanked(n, a) + StartupBlanked(n - Min(n, |a|), b)
  {
  }

  lemma ShutDownSplits(n: nat, x: real, y: real, a: seq<LaserPoint>, b: seq<LaserPoint>)
    ensures ShutDown(n, x, y, a + b) == ShutDown(n, x, y, a) + ShutDown(n - Min(n, |a|), x, y, b)
  {
  }

  lemma DelayedSplits(line: seq<LaserPoint>, a: seq<LaserPoint>, b: seq<LaserPoint>)
    requires line != []
    ensures var line' := (line + a)[|a|..];
            && |line'| == |line|
            && Delayed(line, a + b) == Delayed(line, a) + Delayed(line', b)
            && (line + (a + b))[|a + b|..] == (line' + b)[|b|..]
  {
    var line' := (line + a)[|a|..];
    assert line + (a + b) == (line + a) + b;
    forall i | 0 <= i < |b|
      ensures (line + (a + b))[|a| + i] == (line' + b)[i]
    {
    }
  }

  lemma ResizedIsStable(line: seq<LaserPoint>, k: nat)
    requires |line| == k
    ensures Resized(line, k) == line
  {
  }

  lemma ShapingSplits(st: Post, a: seq<LaserPoint>, b: seq<LaserPoint>)
    ensures var first := Shaped(st, a);
            var second := Shaped(first.0, b);
            Shaped(st, a + b) == (second.0, first.1 + second.1)
  {
    hide StartupBlanked, ShutDown;
    var n, m := st.startupBlanks, st.shutdownBlanks;
    BlankedSplits(n, a, b);
    ShutDownSplits(m, st.lastX, st.lastY, StartupBlanked(n, a), StartupBlanked(n - Min(n, |a|), b));
    assert b == [] ==> a + b == a;
  }

  lemma SyncingSplits(st: Post, a: seq<LaserPoint>, b: seq<LaserPoint>)
    ensures var first := Synced(st, a);
            var second := Synced(first.0, b);
            Synced(st, a + b) == (second.0, first.1 + second.1)
  {
    hide Delayed, Resized, MillisToPoints;
    var line := Resized(st.delayLine, Shift(st));
    if Shift(st) > 0 {
      DelayedSplits(line, a, b);
      ResizedIsStable((line + a)[|a|..], Shift(st));
    }
  }

  /** Processing a block in two parts gives the same output and leaves the same state. */
  lemma SplittingChangesNothing(st: Post, a: seq<LaserPoint>, b: seq<LaserPoint>)
    ensures var first := Process(st, a);
            var second := Process(first.0, b);
            Process(st, a + b) == (second.0, first.1 + second.1)
  {
    hide StartupBlanked, ShutDown, Delayed, Resized, MillisToPoints;
    ShapingSplits(st, a, b);
    var sa := Shaped(st, a);
    var sb := Shaped(sa.0, b);
    SyncingSplits(sb.0, sa.1, sb.1);
  }

  /** All outputs of a list of blocks, one after the other. */
  ghost function ProcessAll(st: Post, blocks: seq<seq<LaserPoint>>): (Post, seq<LaserPoint>)
    decreases |blocks|
  {
    if blocks == [] then (st, [])
    else
      var first := Process(st, blocks[0]);
      var rest := ProcessAll(first.0, blocks[1..]);
      (rest.0, first.1 + rest.1)
  }

  ghost function Joined(blocks: seq<seq<LaserPoint>>): seq<LaserPoint>
  {
    if blocks == [] then [] else blocks[0] + Joined(blocks[1..])
  }

  /** Any number of blocks amounts to one. */
  lemma {:induction false} BlocksAreOneBlock(st: Post, blocks: seq<seq<LaserPoint>>)
    requires blocks != []
    ensures ProcessAll(st, blocks) == Process(st, Joined(blocks))
    decreases |blocks|
  {
    hide Process;
    var first := Process(st, blocks[0]);
    if |blocks| == 1 {
      assert blocks[1..] == [] && blocks[0] + [] == blocks[0];
      assert first.1 + [] == first.1;
    } else {
      BlocksAreOneBlock(first.0, blocks[1..]);
      SplittingChangesNothing(st, blocks[0], Joined(blocks[1..]));
    }
  }

  // ----- durations in points -----

  /** n is the whole number nearest to `exact`, the upper one of two, except that it is never negative
      and never beyond the largest 32-bit int. */
  ghost predicate Nearest(exact: real, n: nat)
  {
    && n <= 0x7FFF_FFFF
    && (n > 0 ==> n as real - 0.5 <= exact)
    && (n < 0x7FFF_FFFF ==> exact < n as real + 0.5)
  }

  /** n points play in one millisecond. */
  ghost predicate OneMillisecond(st: Post, n: nat) { Nearest(st.rate as real / 1000.0, n) }

  /** What plays in so many ten-thousandths of a second, in points and fractions. */
  ghost function PlayedInTenThousandths(time: real, rate: nat): real
  {
    time * rate as real / 10000.0
  }

  /** k points play in the sync time, which counts ten-thousandths of a second. */
  ghost predicate SyncPoints(st: Post, k: nat)
  {
    Nearest(PlayedInTenThousandths(MaxReal(st.syncTime, 0.0), st.rate), k)
  }

  /** The conversion gives the nearest number of points, and no other number is it. */
  lemma MillisToPointsIsNearest(millis: real, rate: nat, exact: real, n: nat)
    requires 1000.0 * exact == millis * rate as real
    ensures MillisToPoints(millis, rate) == n <==> Nearest(exact, n)
  {
    if rate == 0 {
      assert exact == 0.0;
    } else if millis <= 0.0 {
      NotPositive(millis, rate as real);
    } else {
      SecondsTimesRate(millis, rate as real, exact);
      RoundingIsNearest(exact, (exact + 0.5).Floor, n);
    }
  }

  lemma SecondsTimesRate(millis: real, rate: real, exact: real)
    requires 1000.0 * exact == millis * rate
    ensures millis / 1000.0 * rate == exact
  {
  }

  lemma NotPositive(a: real, b: real)
    requires a <= 0.0 <= b
    ensures a * b <= 0.0
  {
  }

  lemma RoundingIsNearest(exact: real, rounded: int, n: nat)
    requires rounded == (exact + 0.5).Floor
    ensures (if rounded <= 0 then 0 else Min(rounded, INT_MAX)) == n <==> Nearest(exact, n)
  {
    assert rounded as real <= exact + 0.5 < (rounded + 1) as real;
    if rounded < n { assert (rounded + 1) as real <= n as real; }
    if rounded > n { assert (n + 1) as real <= rounded as real; }
  }

  lemma ShiftIsNearest(st: Post, k: nat)
    ensures Shift(st) == k <==> SyncPoints(st, k)
  {
    hide MillisToPoints, Nearest;
    var ten := MaxReal(st.syncTime, 0.0);
    var exact := PlayedInTenThousandths(ten, st.rate);
    TenthOf(ten, st.rate as real);
    MillisToPointsIsNearest(ten * 0.1, st.rate, exact, k);
  }

  lemma TenthOf(t: real, r: real)
    ensures 1000.0 * (t * r / 10000.0) == (t * 0.1) * r
  {
    assert (t * 0.1) * r == 0.1 * (t * r);
  }

  lemma MillisecondIsNearest(st: Post, n: nat)
    ensures MillisToPoints(1.0, st.rate) == n <==> OneMillisecond(st, n)
  {
    hide MillisToPoints, Nearest;
    MillisToPointsIsNearest(1.0, st.rate, st.rate as real / 1000.0, n);
  }

  // ----- the delay -----

  ghost predicate SameColour(p: LaserPoint, q: LaserPoint) { p.r == q.r && p.g == q.g && p.b == q.b }

  /** Everything but the colour. */
  ghost predicate SameElse(p: LaserPoint, q: LaserPoint)
  {
    p.x == q.x && p.y == q.y && p.i == q.i && p.u1 == q.u1 && p.u2 == q.u2
  }

  ghost predicate SyncOn(st: Post) { st.syncEnabled && !st.suppressed }

  /** Armed, with the delay line empty or full of colourless points, and k the sync time in points:
      output colour n is the colour of input n - k, black before that, where the inputs still under
      startup blanking count as black. Positions are untouched. The blocks may be cut anywhere. */
  lemma ColourIsDelayedByTheShift(st: Post, blocks: seq<seq<LaserPoint>>, n: nat, k: nat)
    requires st.armed && SyncOn(st) && SyncPoints(st, k) && blocks != [] && n < |Joined(blocks)|
    requires forall i :: 0 <= i < |st.delayLine| ==> NoColour(st.delayLine[i])
    ensures var input, output := Joined(blocks), ProcessAll(st, blocks).1;
            && |output| == |input|
            && SameElse(output[n], input[n])
            && if n < k || n - k < st.startupBlanks then NoColour(output[n])
               else SameColour(output[n], input[n - k])
  {
    hide MillisToPoints, ProcessAll, Joined, NoColour, Nearest;
    ShiftIsNearest(st, k);
    BlocksAreOneBlock(st, blocks);
    var input := Joined(blocks);
    var blanked := StartupBlanked(st.startupBlanks, input);
    BlankedAt(st.startupBlanks, input, n);
    if k == 0 {
      assert Process(st, input).1 == blanked;
    } else {
      ResizedIsColourless(st.delayLine, k);
      DelayedAt(Resized(st.delayLine, k), blanked, n);
      if n >= k {
        BlankedAt(st.startupBlanks, input, n - k);
      }
      assert Process(st, input).1 == Delayed(Resized(st.delayLine, k), blanked);
    }
  }

  lemma DelayedAt(line: seq<LaserPoint>, points: seq<LaserPoint>, n: nat)
    requires n < |points|
    ensures var p := Delayed(line, points)[n];
            && SameElse(p, points[n])
            && SameColour(p, if n < |line| then line[n] else points[n - |line|])
            && (NoColour(if n < |line| then line[n] else points[n - |line|]) ==> NoColour(p))
  {
  }

  lemma BlankedAt(blanks: nat, points: seq<LaserPoint>, n: nat)
    requires n < |points|
    ensures var p := StartupBlanked(blanks, points)[n];
            SameElse(p, points[n]) && if n < blanks then NoColour(p) else p == points[n]
  {
  }

  lemma ResizedIsColourless(line: seq<LaserPoint>, k: nat)
    requires forall i :: 0 <= i < |line| ==> NoColour(line[i])
    ensures forall i :: 0 <= i < k ==> NoColour(Resized(line, k)[i])
  {
  }

  /** Arming: of all that follows, exactly the first N + k outputs are forced dark, N being the points
      of one millisecond and k those of the sync time; from there on every colour is the one that
      entered k points earlier. */
  lemma ArmingStartsDark(st: Post, blocks: seq<seq<LaserPoint>>, n: nat, blanks: nat, k: nat)
    requires !st.armed && SyncOn(st) && blocks != [] && n < |Joined(blocks)|
    requires OneMillisecond(st, blanks) && SyncPoints(st, k)
    ensures var input, output := Joined(blocks), ProcessAll(AfterSetArmed(st, true), blocks).1;
            && |output| == |input|
            && SameElse(output[n], input[n])
            && if n < blanks + k then NoColour(output[n]) else SameColour(output[n], input[n - k])
  {
    hide MillisToPoints, ProcessAll, Joined, Nearest;
    MillisecondIsNearest(st, blanks);
    ColourIsDelayedByTheShift(AfterSetArmed(st, true), blocks, n, k);
  }

  /** With the defaults, 30000 points per second and a sync time of 2, that is 30 and 6 points. */
  lemma ArmingByDefault(blocks: seq<seq<LaserPoint>>, n: nat)
    requires blocks != [] && n < |Joined(blocks)|
    ensures var input, output := Joined(blocks), ProcessAll(AfterSetArmed(INITIAL, true), blocks).1;
            && |output| == |input|
            && if n < 36 then NoColour(output[n]) else SameColour(output[n], input[n - 6])
  {
    hide ProcessAll, Joined, AfterSetArmed, NoColour, SameColour, SameElse, OneMillisecond, SyncPoints;
    DefaultDurations();
    ArmingStartsDark(INITIAL, blocks, n, 30, 6);
  }

  lemma DefaultDurations()
    ensures OneMillisecond(INITIAL, 30) && SyncPoints(INITIAL, 6)
    ensures !INITIAL.armed && SyncOn(INITIAL)
  {
    assert INITIAL.rate as real == 30000.0;
    assert PlayedInTenThousandths(2.0, 30000) == 6.0;
  }

  /** With scanner sync off, suppressed or too short for half a point nothing is delayed: armed output is
      the input, dark while startup blanking lasts. */
  lemma WithoutSyncOnlyStartupBlanks(st: Post, blocks: seq<seq<LaserPoint>>)
    requires st.armed && (SyncOn(st) ==> SyncPoints(st, 0)) && blocks != []
    ensures ProcessAll(st, blocks).1 == StartupBlanked(st.startupBlanks, Joined(blocks))
  {
    hide StartupBlanked, Delayed, Resized, Nearest, MillisToPoints;
    ShiftIsNearest(st, 0);
    BlocksAreOneBlock(st, blocks);
  }

  // ----- every sequence of calls -----

  datatype Call =
    | Block(points: seq<LaserPoint>)
    | SetArmed(state: bool)
    | SetRate(rate: nat)
    | SetSync(offset: real)
    | SetSyncEnabled(enabled: bool)
    | SetSuppressed(suppressed: bool)
    | ResetStartup
    | ResetShutdown

  ghost function After(st: Post, call: Call): (Post, seq<LaserPoint>)
  {
    match call
    case Block(points) => Process(st, points)
    case SetArmed(state) => (AfterSetArmed(st, state), [])
    case SetRate(rate) => (st.(rate := rate), [])
    case SetSync(offset) => (st.(syncTime := if offset < 0.0 then 0.0 else offset), [])
    case SetSyncEnabled(enabled) =>
      (st.(syncEnabled := enabled, delayLine := if st.syncEnabled != enabled then [] else st.delayLine), [])
    case SetSuppressed(s) =>
      (st.(suppressed := s, delayLine := if st.suppressed != s then [] else st.delayLine), [])
    case ResetStartup => (AfterResetStartup(st), [])
    case ResetShutdown => (AfterResetShutdown(st), [])
  }

  ghost function StateAfter(st: Post, calls: seq<Call>): Post
    decreases |calls|
  {
    if calls == [] then st else StateAfter(After(st, calls[0]).0, calls[1..])
  }

  /** While disarmed, no colour waits in the delay line. */
  ghost predicate NoColourWaits(st: Post)
  {
    !st.armed ==> forall i :: 0 <= i < |st.delayLine| ==> NoColour(st.delayLine[i])
  }

  lemma DelayedIsColourless(line: seq<LaserPoint>, points: seq<LaserPoint>)
    requires forall i :: 0 <= i < |line| ==> NoColour(line[i])
    requires forall i :: 0 <= i < |points| ==> NoColour(points[i])
    ensures forall i :: 0 <= i < |points| ==> NoColour(Delayed(line, points)[i])
    ensures forall i :: 0 <= i < |line| ==> NoColour((line + points)[|points|..][i])
  {
    var all := line + points;
    assert forall i :: 0 <= i < |all| ==> NoColour(all[i]);
  }

  lemma BlockKeepsDark(st: Post, points: seq<LaserPoint>)
    requires NoColourWaits(st)
    ensures NoColourWaits(Process(st, points).0)
    ensures !st.armed ==> forall i :: 0 <= i < |points| ==> NoColour(Process(st, points).1[i])
  {
    if !st.armed {
      var shaped := ShutDown(st.shutdownBlanks, st.lastX, st.lastY, StartupBlanked(st.startupBlanks, points));
      var line := Resized(st.delayLine, Shift(st));
      DelayedIsColourless(line, shaped);
    }
  }

  lemma {:induction false} CallsKeepDark(st: Post, calls: seq<Call>)
    requires NoColourWaits(st)
    ensures NoColourWaits(StateAfter(st, calls))
    decreases |calls|
  {
    hide Process, NoColour, MillisToPoints;
    if calls != [] {
      if calls[0].Block? {
        BlockKeepsDark(st, calls[0].points);
      }
      CallsKeepDark(After(st, calls[0]).0, calls[1..]);
    }
  }

  /** After every sequence of calls: if the controller is disarmed, a block comes out without colour,
      whatever went in and whatever waits in the delay line. */
  lemma DisarmedOutputIsDark(calls: seq<Call>, points: seq<LaserPoint>, i: nat)
    requires !StateAfter(INITIAL, calls).armed && i < |points|
    ensures NoColour(Process(StateAfter(INITIAL, calls), points).1[i])
  {
    hide Process, StateAfter, NoColour;
    CallsKeepDark(INITIAL, calls);
    BlockKeepsDark(StateAfter(INITIAL, calls), points);
  }

  // ----- where the beam goes on disarming -----

  /** Calls that neither arm nor restart the shutdown count. */
  ghost predicate StayDisarmed(calls: seq<Call>)
  {
    forall i :: 0 <= i < |calls| ==> calls[i] != SetArmed(true) && !calls[i].ResetShutdown?
  }

  ghost function Output(st: Post, calls: seq<Call>): seq<LaserPoint>
    decreases |calls|
  {
    if calls == [] then []
    else After(st, calls[0]).1 + Output(After(st, calls[0]).0, calls[1..])
  }

  ghost predicate ParkedAt(p: LaserPoint, x: real, y: real) { p.x == x && p.y == y }

  lemma DisarmedBlockParks(st: Post, points: seq<LaserPoint>, i: nat)
    requires !st.armed && i < |points|
    ensures var p := Process(st, points).1[i];
            if i < st.shutdownBlanks then ParkedAt(p, st.lastX, st.lastY) else ParkedAt(p, 0.0, 0.0)
  {
    hide MillisToPoints, Resized;
  }

  lemma {:induction false} DisarmedRunParks(st: Post, calls: seq<Call>, i: nat)
    requires !st.armed && StayDisarmed(calls) && i < |Output(st, calls)|
    ensures var p := Output(st, calls)[i];
            if i < st.shutdownBlanks then ParkedAt(p, st.lastX, st.lastY) else ParkedAt(p, 0.0, 0.0)
    decreases |calls|
  {
    hide StartupBlanked, ShutDown, Delayed, Resized, MillisToPoints;
    var first := After(st, calls[0]);
    if i < |first.1| {
      DisarmedBlockParks(st, calls[0].points, i);
    } else {
      DisarmedRunParks(first.0, calls[1..], i - |first.1|);
    }
  }

  /** The last position is that of the last armed point, as it went out. */
  lemma ArmedBlockRemembersItsEnd(st: Post, points: seq<LaserPoint>)
    requires st.armed && points != []
    ensures var r := Process(st, points);
            ParkedAt(r.1[|points| - 1], r.0.lastX, r.0.lastY)
  {
    hide MillisToPoints, Resized;
  }

  /** Disarming after an armed block: the outputs that follow, over any sequence of calls that does
      not arm again, stay at the block's last position for exactly the points of the sync time, if it
      is enabled, and of one millisecond more, and are at the centre from then on. */
  lemma DisarmingParksTheBeam(st: Post, points: seq<LaserPoint>, calls: seq<Call>, i: nat, dwell: nat, k: nat)
    requires st.armed && points != [] && StayDisarmed(calls)
    requires OneMillisecond(st, dwell) && SyncPoints(st, k)
    requires i < |Output(AfterSetArmed(Process(st, points).0, false), calls)|
    ensures var r := Process(st, points);
            var end := r.1[|points| - 1];
            var p := Output(AfterSetArmed(r.0, false), calls)[i];
            if i < dwell + (if st.syncEnabled then k else 0) then ParkedAt(p, end.x, end.y)
            else ParkedAt(p, 0.0, 0.0)
  {
    hide MillisToPoints, Output, StartupBlanked, Delayed, Resized, ParkedAt, Nearest;
    MillisecondIsNearest(st, dwell);
    ShiftIsNearest(st, k);
    ArmedBlockRemembersItsEnd(st, points);
    var r := Process(st, points);
    DisarmedRunParks(AfterSetArmed(r.0, false), calls, i);
    SamePark(r.1[|points| - 1], r.0.lastX, r.0.lastY);
  }

  lemma SamePark(p: LaserPoint, x: real, y: real)
    requires ParkedAt(p, x, y)
    ensures p.x == x && p.y == y
  {
  }
}
