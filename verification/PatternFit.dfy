/** Shortening a pattern to a device's point limit: `fitCurrentPatternToPointLimit` in
src/lightspacenet/LightSpaceNetPacket.cpp. The head of the pattern is kept and the freed tail
becomes a dark move to where the pattern ends. */
module PatternFit {
  import opened Arithmetic
  import opened LaserPoints

  const MIN_TRAVEL_POINTS: nat := 2
  const MAX_TRAVEL_POINTS: nat := 128
  const SETTLING_ROUNDS: nat := 8

  // The squared number of 2 % segments per unit of squared distance: (1 / 0.04) squared.
  const SEGMENTS_PER_DISTANCE_SQUARED: real := 625.0

  /** The least whole number whose square is at least v. */
  function CeilSqrt(v: real): (r: nat)
    requires v >= 0.0
  {
    var f := FloorSqrt(v);
    if (f * f) as real == v then f else f + 1
  }

  lemma CeilSqrtIsLeast(v: real, n: nat)
    requires v >= 0.0
    ensures CeilSqrt(v) <= n <==> v <= (n * n) as real
  {
    hide FloorSqrt;
    var f := FloorSqrt(v);
    if n <= f {
      SquaresGrow(n, f);
    } else {
      SquaresGrow(f + 1, n);
    }
    if n < f { SquaresGrow(n + 1, f); }
  }

  lemma SquaresGrow(a: nat, b: nat)
    requires a <= b
    ensures a * a <= b * b
  {
    assert a * a <= a * b <= b * b;
  }

  /** The square of the distance between two points, in segments of 2 % of the width. */
  function SquaredSegments(from: LaserPoint, to: LaserPoint): (v: real)
    ensures v >= 0.0
  {
    var dx := ClampReal(to.x, -1.0, 1.0) - ClampReal(from.x, -1.0, 1.0);
    var dy := ClampReal(to.y, -1.0, 1.0) - ClampReal(from.y, -1.0, 1.0);
    assert dx * dx >= 0.0 && dy * dy >= 0.0;
    SEGMENTS_PER_DISTANCE_SQUARED * (dx * dx + dy * dy)
  }

  /** The number of points of a dark move between two points, one per 2 % of the width. */
  function TravelCount(from: LaserPoint, to: LaserPoint): (n: nat)
    ensures MIN_TRAVEL_POINTS <= n <= MAX_TRAVEL_POINTS
  {
    Min(Max(CeilSqrt(SquaredSegments(from, to)) + 1, MIN_TRAVEL_POINTS), MAX_TRAVEL_POINTS)
  }

  /** The cap is never reached: the diagonal of the coordinate square takes 72 points. */
  lemma TravelCountIsBelowTheCap(from: LaserPoint, to: LaserPoint)
    ensures CeilSqrt(SquaredSegments(from, to)) <= 71 && TravelCount(from, to) <= 72
  {
    var dx := ClampReal(to.x, -1.0, 1.0) - ClampReal(from.x, -1.0, 1.0);
    var dy := ClampReal(to.y, -1.0, 1.0) - ClampReal(from.y, -1.0, 1.0);
    SquareIsSmall(dx);
    SquareIsSmall(dy);
    assert SquaredSegments(from, to) <= 5000.0;
    CeilSqrtIsLeast(SquaredSegments(from, to), 71);
  }

  lemma SquareIsSmall(d: real)
    requires -2.0 <= d <= 2.0
    ensures d * d <= 4.0
  {
    if d >= 0.0 {
      MagnitudeIsSmall(d);
    } else {
      var m := -d;
      MagnitudeIsSmall(m);
      assert m * m == d * d;
    }
  }

  lemma MagnitudeIsSmall(m: real)
    requires 0.0 <= m <= 2.0
    ensures m * m <= 4.0
  {
    assert m * m <= 2.0 * m;
  }

  /** The tail a move from the last point left by a tail of `tail` points would need. */
  function DesiredTail(points: seq<LaserPoint>, limit: nat, tail: nat): (t: nat)
    requires 2 <= limit < |points| && 1 <= tail < limit
    ensures Min(MIN_TRAVEL_POINTS, limit - 1) <= t < limit
  {
    Min(TravelCount(points[limit - tail - 1], points[|points| - 1]), limit - 1)
  }

  /** The tail after at most `rounds` corrections. */
  function SettledTail(points: seq<LaserPoint>, limit: nat, tail: nat, rounds: nat): (t: nat)
    requires 2 <= limit < |points| && Min(MIN_TRAVEL_POINTS, limit - 1) <= tail < limit
    ensures Min(MIN_TRAVEL_POINTS, limit - 1) <= t < limit
    decreases rounds
  {
    if rounds == 0 then tail
    else
      var desired := DesiredTail(points, limit, tail);
      if desired == tail then tail else SettledTail(points, limit, desired, rounds - 1)
  }

  function FirstTail(points: seq<LaserPoint>, limit: nat): (t: nat)
    requires 2 <= limit < |points|
    ensures Min(MIN_TRAVEL_POINTS, limit - 1) <= t < limit
  {
    Min(TravelCount(points[limit - 2], points[|points| - 1]), limit - 1)
  }

  function Move(from: LaserPoint, to: LaserPoint, count: nat): (s: seq<LaserPoint>)
    ensures |s| == count
    ensures forall k :: 0 <= k < count ==> Dark(s[k])
  {
    seq(count, k requires 0 <= k < count => EasedBlank(from, to, k, count))
  }

  function Fitted(points: seq<LaserPoint>, limit: nat): seq<LaserPoint>
  {
    if |points| <= limit then points
    else if limit == 0 then []
    else if limit == 1 then [points[|points| - 1].(r := 0.0, g := 0.0, b := 0.0, i := 0.0)]
    else
      var tail := SettledTail(points, limit, FirstTail(points, limit), SETTLING_ROUNDS);
      points[..limit - tail] + Move(points[limit - tail - 1], points[|points| - 1], tail)
  }

  predicate SamePlace(p: LaserPoint, q: LaserPoint) { p.x == q.x && p.y == q.y }

  ghost predicate HeadThenDarkMove(points: seq<LaserPoint>, f: seq<LaserPoint>, head: nat)
  {
    && 1 <= head < |f| <= |points|
    && f[..head] == points[..head]
    && SamePlace(f[head], f[head - 1])
    && forall k :: head <= k < |f| ==> Dark(f[k])
  }

  /** A cut pattern has exactly as many points as the limit allows: an unchanged, non-empty head of
      the pattern, then only dark points, the first of them where the head stops. */
  lemma FittedShape(points: seq<LaserPoint>, limit: nat)
    requires 2 <= limit < |points|
    ensures var f := Fitted(points, limit);
            |f| == limit && exists head: nat :: HeadThenDarkMove(points, f, head)
  {
    hide SettledTail, FirstTail, EasedBlank;
    var f := Fitted(points, limit);
    var tail := SettledTail(points, limit, FirstTail(points, limit), SETTLING_ROUNDS);
    var head := limit - tail;
    var from, to := points[head - 1], points[|points| - 1];
    var move := Move(from, to, tail);
    assert f == points[..head] + move;
    forall k | head <= k < limit ensures Dark(f[k]) {
      assert f[k] == move[k - head];
    }
    assert f[head] == move[0] == EasedBlank(from, to, 0, tail);
    DepartsInPlace(from, to, tail);
    assert f[..head] == points[..head];
    assert HeadThenDarkMove(points, f, head);
  }

  lemma DepartsInPlace(from: LaserPoint, to: LaserPoint, count: nat)
    requires count >= 1
    ensures SamePlace(EasedBlank(from, to, 0, count), from)
  {
    if count > 1 {
      EasedBlankEnds(from, to, count);
    } else {
      assert CubicEaseInOut(0.0) == 0.0;
    }
  }

  /** A pattern never grows, never shrinks below the limit, and is untouched when it fits. */
  lemma FittedSize(points: seq<LaserPoint>, limit: nat)
    ensures |Fitted(points, limit)| == Min(|points|, limit)
    ensures |points| <= limit ==> Fitted(points, limit) == points
  {
  }

  /** The fitted pattern ends where the pattern ends, for every limit except 2: there the one dark
      point that fits stays at the first point, which is the right place only by coincidence. */
  lemma FittedEndsInPlaceExactly(points: seq<LaserPoint>, limit: nat)
    requires 1 <= limit && points != []
    ensures var f := Fitted(points, limit);
            |f| >= 1 &&
            (SamePlace(f[|f| - 1], points[|points| - 1])
             <==> (limit == 2 < |points| ==> SamePlace(points[0], points[|points| - 1])))
  {
    hide SettledTail, FirstTail, EasedBlank;
    var f := Fitted(points, limit);
    if 2 <= limit < |points| {
      var tail := SettledTail(points, limit, FirstTail(points, limit), SETTLING_ROUNDS);
      var from, to := points[limit - tail - 1], points[|points| - 1];
      assert f[|f| - 1] == EasedBlank(from, to, tail - 1, tail);
      if limit == 2 {
        DepartsInPlace(from, to, 1);
      } else {
        EasedBlankEnds(from, to, tail);
      }
    }
  }

  /** A move of `count` points whose steps are at most 2 % of the width on average. */
  ghost predicate FinelySpaced(from: LaserPoint, to: LaserPoint, count: nat)
  {
    count >= 2 && SquaredSegments(from, to) <= ((count - 1) * (count - 1)) as real
  }

  /** The travel count is the least number of points that space a move finely. */
  lemma TravelCountSpacesFinely(from: LaserPoint, to: LaserPoint, count: nat)
    ensures FinelySpaced(from, to, count) <==> TravelCount(from, to) <= count
  {
    TravelCountIsBelowTheCap(from, to);
    hide CeilSqrt, SquaredSegments;
    if count >= MIN_TRAVEL_POINTS {
      CeilSqrtIsLeast(SquaredSegments(from, to), count - 1);
    }
  }

  /** The points between which a cut pattern moves in the dark, and how many points the move has. */
  function FittedMove(points: seq<LaserPoint>, limit: nat): (m: (LaserPoint, LaserPoint, nat))
    requires 3 <= limit < |points|
    ensures 2 <= m.2 < limit
  {
    var tail := SettledTail(points, limit, FirstTail(points, limit), SETTLING_ROUNDS);
    (points[limit - tail - 1], points[|points| - 1], tail)
  }

  // ----- when the move is finely spaced -----

  /** The tails wanted one after the other, beginning with a tail of one point; nothing stops this
      sequence early. */
  function Wanted(points: seq<LaserPoint>, limit: nat, k: nat): (t: nat)
    requires 3 <= limit < |points|
    ensures 1 <= t < limit && (k > 0 ==> t >= MIN_TRAVEL_POINTS)
  {
    if k == 0 then 1 else DesiredTail(points, limit, Wanted(points, limit, k - 1))
  }

  lemma {:induction false} SettlingFollowsWanted(points: seq<LaserPoint>, limit: nat, k: nat, rounds: nat)
    requires 3 <= limit < |points| && k > 0
    ensures SettledTail(points, limit, Wanted(points, limit, k), rounds) == Wanted(points, limit, k + rounds)
    decreases rounds
  {
    hide DesiredTail;
    if rounds > 0 {
      var tail := Wanted(points, limit, k);
      assert Wanted(points, limit, k + 1) == DesiredTail(points, limit, tail);
      if Wanted(points, limit, k + 1) == tail {
        WantedStays(points, limit, k, rounds);
      } else {
        SettlingFollowsWanted(points, limit, k + 1, rounds - 1);
      }
    }
  }

  lemma {:induction false} WantedStays(points: seq<LaserPoint>, limit: nat, k: nat, more: nat)
    requires 3 <= limit < |points|
    ensures Wanted(points, limit, k + 1) == Wanted(points, limit, k)
        ==> Wanted(points, limit, k + more) == Wanted(points, limit, k)
    decreases more
  {
    hide DesiredTail;
    if more > 0 {
      WantedStays(points, limit, k, more - 1);
    }
  }

  /** What the loop leaves is the ninth wanted tail, whether it settled or ran out of rounds. */
  lemma FittedTailIsTheNinth(points: seq<LaserPoint>, limit: nat)
    requires 3 <= limit < |points|
    ensures FittedMove(points, limit)
         == (points[limit - Wanted(points, limit, 9) - 1], points[|points| - 1], Wanted(points, limit, 9))
  {
    hide SettledTail, TravelCount;
    assert Wanted(points, limit, 0) == 1;
    assert FirstTail(points, limit) == Wanted(points, limit, 1);
    SettlingFollowsWanted(points, limit, 1, SETTLING_ROUNDS);
  }

  /** The move of the cut pattern keeps the spacing. */
  ghost predicate MoveIsFine(points: seq<LaserPoint>, limit: nat)
    requires 3 <= limit < |points|
  {
    var m := FittedMove(points, limit);
    FinelySpaced(m.0, m.1, m.2)
  }

  /** For every pattern: the move is finely spaced exactly when the wanted tails do not rise from the
      ninth to the tenth, and, should the ninth already use up the limit, the move from the first
      point fits as well. */
  lemma FittedMoveIsFineExactly(points: seq<LaserPoint>, limit: nat)
    requires 3 <= limit < |points|
    ensures MoveIsFine(points, limit) <==>
            && Wanted(points, limit, 10) <= Wanted(points, limit, 9)
            && (Wanted(points, limit, 9) == limit - 1 ==> TravelCount(points[0], points[|points| - 1]) < limit)
  {
    hide TravelCount, FinelySpaced, FittedMove;
    FittedTailIsTheNinth(points, limit);
    var tail := Wanted(points, limit, 9);
    assert Wanted(points, limit, 10) == DesiredTail(points, limit, tail);
    TravelCountSpacesFinely(points[limit - tail - 1], points[|points| - 1], tail);
  }

  /** Cutting the pattern further back never needs a longer move. */
  ghost predicate CuttingBackNeverLengthens(points: seq<LaserPoint>, limit: nat)
    requires 3 <= limit < |points|
  {
    forall a: nat, b: nat :: 1 <= a <= b < limit ==> DesiredTail(points, limit, b) <= DesiredTail(points, limit, a)
  }

  /** Then the wanted tails alternate around where they would settle: every odd one is at least its
      neighbours. */
  lemma {:induction false} WantedAlternates(points: seq<LaserPoint>, limit: nat, k: nat)
    requires 3 <= limit < |points| && CuttingBackNeverLengthens(points, limit)
    ensures Wanted(points, limit, 2 * k) <= Wanted(points, limit, 2 * k + 1)
    ensures Wanted(points, limit, 2 * k + 2) <= Wanted(points, limit, 2 * k + 1)
    decreases k
  {
    hide DesiredTail;
    var at := (j: nat) => Wanted(points, limit, j);
    if k > 0 {
      WantedAlternates(points, limit, k - 1);
      assert DesiredTail(points, limit, at(2 * k - 1)) == at(2 * k);
      assert DesiredTail(points, limit, at(2 * k)) == at(2 * k + 1);
    } else {
      assert at(0) == 1;
      assert DesiredTail(points, limit, at(0)) == at(1);
    }
    assert DesiredTail(points, limit, at(2 * k + 1)) == at(2 * k + 2);
  }

  /** For patterns that cutting back never makes harder to close, the move is finely spaced exactly
      when the limit has room for the move from the first point. */
  lemma FineWhenCuttingBackNeverLengthens(points: seq<LaserPoint>, limit: nat)
    requires 3 <= limit < |points| && CuttingBackNeverLengthens(points, limit)
    ensures MoveIsFine(points, limit) <==> TravelCount(points[0], points[|points| - 1]) < limit
  {
    hide MoveIsFine, TravelCount;
    WantedAlternates(points, limit, 4);
    FittedMoveIsFineExactly(points, limit);
    var tail := Wanted(points, limit, 9);
    assert Wanted(points, limit, 10) == DesiredTail(points, limit, tail);
    assert DesiredTail(points, limit, limit - 1) <= DesiredTail(points, limit, tail);
  }

  /** How far the converse goes: with room for the move from the first point, a coarse move means that
      some cut further back needs a longer move. */
  lemma CoarseMoveNeedsARise(points: seq<LaserPoint>, limit: nat)
    requires 3 <= limit < |points| && TravelCount(points[0], points[|points| - 1]) < limit
    requires !MoveIsFine(points, limit)
    ensures exists a: nat, b: nat :: 1 <= a < b < limit && DesiredTail(points, limit, a) < DesiredTail(points, limit, b)
  {
    hide MoveIsFine, TravelCount, DesiredTail;
    if CuttingBackNeverLengthens(points, limit) {
      FineWhenCuttingBackNeverLengthens(points, limit);
      assert false;
    } else {
      var a: nat, b: nat :| 1 <= a <= b < limit && DesiredTail(points, limit, b) > DesiredTail(points, limit, a);
      assert a < b;
    }
  }

  /** A rise between two tails that want each other is enough only if the shorter one comes first: then
      the rounds end on it, and the move is coarse. */
  lemma AlternatingTailIsFineExactly(points: seq<LaserPoint>, limit: nat, a: nat, b: nat)
    requires 3 <= limit < |points| && 1 <= a < limit && 1 <= b < limit && a != b
    requires DesiredTail(points, limit, 1) == a
    requires DesiredTail(points, limit, a) == b && DesiredTail(points, limit, b) == a
    ensures FittedMove(points, limit).2 == a && (MoveIsFine(points, limit) <==> b < a)
  {
    hide TravelCount, MoveIsFine, FittedMove;
    assert Wanted(points, limit, 1) == DesiredTail(points, limit, Wanted(points, limit, 0));
    assert Wanted(points, limit, 3) == DesiredTail(points, limit, Wanted(points, limit, 2));
    WantedSwings(points, limit, 4);
    FittedTailIsTheNinth(points, limit);
    FittedMoveIsFineExactly(points, limit);
  }

  /** Tails that swing once swing for ever. */
  lemma {:induction false} WantedSwings(points: seq<LaserPoint>, limit: nat, k: nat)
    requires 3 <= limit < |points|
    ensures Wanted(points, limit, 3) == Wanted(points, limit, 1)
        ==> && Wanted(points, limit, 2 * k + 1) == Wanted(points, limit, 1)
            && Wanted(points, limit, 2 * k + 2) == Wanted(points, limit, 2)
    decreases k
  {
    hide DesiredTail;
    if k > 0 {
      WantedSwings(points, limit, k - 1);
      assert Wanted(points, limit, 2 * k + 1) == DesiredTail(points, limit, Wanted(points, limit, 2 * k));
      assert Wanted(points, limit, 3) == DesiredTail(points, limit, Wanted(points, limit, 2));
    }
    assert Wanted(points, limit, 2 * k + 2) == DesiredTail(points, limit, Wanted(points, limit, 2 * k + 1));
    assert Wanted(points, limit, 2) == DesiredTail(points, limit, Wanted(points, limit, 1));
  }

  const HOME := BLANK_POINT
  const AWAY := BLANK_POINT.(x := 0.1)

  /** Eight rounds need not settle: the wanted tail alternates between 2 and 4 points, and the
      pattern ends with a jump in 2 points although 4 would have fitted. */
  lemma TailMayNeverSettle()
    ensures var points := [HOME, HOME, HOME, AWAY, HOME, HOME, HOME];
            && TravelCount(points[0], points[6]) < 6 && !MoveIsFine(points, 6)
            && FittedMove(points, 6) == (AWAY, HOME, 2) && FinelySpaced(AWAY, HOME, 4)
  {
    var points := [HOME, HOME, HOME, AWAY, HOME, HOME, HOME];
    HomeAndAway();
    hide TravelCount, FinelySpaced, MoveIsFine, SettledTail;
    AlternatingTailIsFineExactly(points, 6, 2, 4);
  }

  /** A rise alone is not: here cutting back to the first point would need a longer move, but the
      wanted tail is never that long. */
  lemma FineDespiteARise()
    ensures var points := [AWAY, HOME, HOME, HOME, HOME, HOME, HOME];
            !CuttingBackNeverLengthens(points, 6) && MoveIsFine(points, 6)
  {
    var points := [AWAY, HOME, HOME, HOME, HOME, HOME, HOME];
    HomeAndAway();
    hide TravelCount, FinelySpaced, MoveIsFine;
    assert DesiredTail(points, 6, 5) == 4 && DesiredTail(points, 6, 1) == 2;
    assert Wanted(points, 6, 0) == 1 && Wanted(points, 6, 1) == 2 && Wanted(points, 6, 2) == 2;
    hide DesiredTail;
    WantedStays(points, 6, 1, 8);
    WantedStays(points, 6, 1, 9);
    FittedMoveIsFineExactly(points, 6);
  }

  lemma HomeAndAway()
    ensures TravelCount(HOME, HOME) == 2 && TravelCount(AWAY, HOME) == 4
    ensures !FinelySpaced(AWAY, HOME, 2) && FinelySpaced(AWAY, HOME, 4)
  {
    assert SquaredSegments(HOME, HOME) == 0.0;
    assert SquaredSegments(AWAY, HOME) == 6.25;
    hide SquaredSegments, TravelCount;
    TravelCountSpacesFinely(HOME, HOME, 2);
    TravelCountSpacesFinely(AWAY, HOME, 2);
    TravelCountSpacesFinely(AWAY, HOME, 3);
    TravelCountSpacesFinely(AWAY, HOME, 4);
  }

  /** A pattern of three points cut to two: it ends dark where it began. */
  lemma TwoPointLimitEndsElsewhere()
    ensures var points := [HOME, HOME, AWAY];
            !SamePlace(Fitted(points, 2)[|Fitted(points, 2)| - 1], points[|points| - 1])
  {
    hide Fitted;
    FittedEndsInPlaceExactly([HOME, HOME, AWAY], 2);
  }

  method Settle(points: seq<LaserPoint>, limit: nat) returns (tail: nat)
    requires 2 <= limit < |points|
    ensures tail == SettledTail(points, limit, FirstTail(points, limit), SETTLING_ROUNDS)
  {
    hide TravelCount;
    var finalPoint := points[|points| - 1];
    tail := Min(TravelCount(points[limit - 2], finalPoint), limit - 1);
    for round := 0 to SETTLING_ROUNDS
      invariant Min(MIN_TRAVEL_POINTS, limit - 1) <= tail < limit
      invariant SettledTail(points, limit, tail, SETTLING_ROUNDS - round)
             == SettledTail(points, limit, FirstTail(points, limit), SETTLING_ROUNDS)
    {
      var desired := Min(TravelCount(points[limit - tail - 1], finalPoint), limit - 1);
      assert desired == DesiredTail(points, limit, tail);
      if desired == tail { break; }
      tail := desired;
    }
  }

  method AppendBlankTravelPoints(output: seq<LaserPoint>, from: LaserPoint, to: LaserPoint, count: nat)
    returns (extended: seq<LaserPoint>)
    ensures extended == output + Move(from, to, count)
  {
    hide EasedBlank;
    extended := output;
    for i := 0 to count
      invariant extended == output + Move(from, to, count)[..i]
    {
      extended := extended + [EasedBlank(from, to, i, count)];
    }
  }

  /** The cut, settled in at most eight rounds, then the move appended point by point. */
  method Fit(points: seq<LaserPoint>, limit: nat) returns (fitted: seq<LaserPoint>)
    ensures fitted == Fitted(points, limit)
  {
    hide SettledTail, FirstTail, Move;
    if |points| <= limit { return points; }
    if limit == 0 { return []; }
    var finalPoint := points[|points| - 1];
    if limit == 1 { return [finalPoint.(r := 0.0, g := 0.0, b := 0.0, i := 0.0)]; }
    var tail := Settle(points, limit);
    fitted := points[..limit - tail];
    fitted := AppendBlankTravelPoints(fitted, fitted[|fitted| - 1], finalPoint, tail);
  }
}
