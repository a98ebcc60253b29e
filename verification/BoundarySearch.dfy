/** Where to cut a point stream: `findNaturalBoundary` in src/core/PointStreamFramer.cpp.

Distances are taken by an arbitrary function `dist`: nothing proved here depends on its being
Euclidean. Scores are real numbers. */
module BoundarySearch {
  import opened Arithmetic
  import opened LaserPoints

  type Metric = (LaserPoint, LaserPoint) -> real

  /** What the search reads besides the points. */
  datatype Settings = Settings(nominal: nat, maxSize: nat, forcedEmits: nat,
                               anchor: LaserPoint, dist: Metric)

  const DISTANCE_THRESHOLD := 0.3
  const BLANK_THRESHOLD := 0.01
  const FORCE_EMIT_FALLBACK: nat := 3
  const MIN_BLANK_RUN: nat := 4
  const HOME_THRESHOLD := 0.03
  const TRANSITION_DISTANCE_THRESHOLD := 0.15
  const BOUNDARY_SCORE_THRESHOLD := 0.55
  const BLANK_RUN_SCORE_TARGET := 64.0
  const HOME_DWELL_SCORE_TARGET := 8.0

  predicate IsBlanked(p: LaserPoint) { p.r + p.g + p.b < BLANK_THRESHOLD }

  function Abs(x: real): real { if x < 0.0 then -x else x }

  function WindowStart(cfg: Settings): nat
  {
    var factor := if cfg.forcedEmits >= FORCE_EMIT_FALLBACK then 0.9 else 0.5;
    var scaled := cfg.nominal as real * factor;
    assert scaled >= 0.0;
    scaled.Floor
  }

  function WindowEnd(points: seq<LaserPoint>, cfg: Settings): nat
  {
    if cfg.maxSize < |points| then cfg.maxSize else |points|
  }

  // ----- loop closure -----

  function PositionScore(p: LaserPoint, cfg: Settings): real
  {
    1.0 - ClampReal(cfg.dist(p, cfg.anchor) / DISTANCE_THRESHOLD, 0.0, 1.0)
  }

  function SizeRatio(i: nat, cfg: Settings): real
    requires cfg.nominal > 0
  {
    i as real / cfg.nominal as real
  }

  function LoopScore(points: seq<LaserPoint>, i: nat, cfg: Settings): real
    requires i < |points| && cfg.nominal > 0
  {
    var sizeScore := 1.0 - Abs(SizeRatio(i, cfg) - 1.0);
    var gapEndBonus := if i + 1 < |points| && !IsBlanked(points[i + 1]) then 1.0 else 0.0;
    PositionScore(points[i], cfg) * 0.6 + sizeScore * 0.3 + gapEndBonus * 0.1
  }

  /** Index i closes the loop: blanked, inside the window, and near the anchor. */
  predicate ClosesLoop(points: seq<LaserPoint>, i: nat, cfg: Settings)
  {
    && WindowStart(cfg) <= i < WindowEnd(points, cfg)
    && IsBlanked(points[i])
    && PositionScore(points[i], cfg) > 0.0
  }

  /** The cut after the earliest loop closure of maximal score; 0 when none scores above -1. */
  ghost predicate IsBestLoop(points: seq<LaserPoint>, cfg: Settings, upTo: nat, cut: nat, score: real)
    requires cfg.nominal > 0
  {
    if cut == 0 then
      && score == -1.0
      && forall j: nat :: j < upTo && ClosesLoop(points, j, cfg) ==> LoopScore(points, j, cfg) <= score
    else
      && cut <= upTo
      && ClosesLoop(points, cut - 1, cfg)
      && score == LoopScore(points, cut - 1, cfg) > -1.0
      && (forall j: nat :: j < upTo && ClosesLoop(points, j, cfg) ==> LoopScore(points, j, cfg) <= score)
      && (forall j: nat :: j < cut - 1 && ClosesLoop(points, j, cfg) ==> LoopScore(points, j, cfg) < score)
  }

  method FindBestLoop(points: seq<LaserPoint>, cfg: Settings) returns (cut: nat, score: real)
    requires cfg.nominal > 0 && WindowStart(cfg) < WindowEnd(points, cfg)
    ensures IsBestLoop(points, cfg, WindowEnd(points, cfg), cut, score)
  {
    cut, score := 0, -1.0;
    var i := WindowStart(cfg);
    while i < WindowEnd(points, cfg)
      invariant WindowStart(cfg) <= i <= WindowEnd(points, cfg)
      invariant IsBestLoop(points, cfg, i, cut, score)
    {
      if IsBlanked(points[i]) && PositionScore(points[i], cfg) > 0.0 {
        if LoopScore(points, i, cfg) > score {
          cut, score := i + 1, LoopScore(points, i, cfg);
        }
      }
      i := i + 1;
    }
  }

  // ----- renderer transition -----

  /** A maximal run of blanked points followed by a lit one. */
  ghost predicate BlankRun(points: seq<LaserPoint>, start: nat, end: nat)
  {
    && start < end < |points|
    && (forall j :: start <= j < end ==> IsBlanked(points[j]))
    && !IsBlanked(points[end])
    && (start > 0 ==> !IsBlanked(points[start - 1]))
  }

  /** The cut at s leaves the current frame on the last point near its home in a long blank run,
      before the dark travel away from home. */
  ghost predicate CutsBeforeTravel(points: seq<LaserPoint>, cfg: Settings, home: LaserPoint,
                                   s: nat, start: nat, end: nat)
  {
    && BlankRun(points, start, end)
    && end - start >= MIN_BLANK_RUN
    && start <= s && s + 1 < end
    && cfg.dist(points[s], home) <= HOME_THRESHOLD < cfg.dist(points[s + 1], home)
    && MaxReal(cfg.dist(points[end - 1], home), cfg.dist(points[end], home)) >= TRANSITION_DISTANCE_THRESHOLD
  }

  ghost predicate FirstLit(points: seq<LaserPoint>, i: nat)
  {
    i < |points| && !IsBlanked(points[i]) && forall j :: 0 <= j < i ==> IsBlanked(points[j])
  }

  ghost predicate IsTransition(points: seq<LaserPoint>, cfg: Settings, s: nat)
  {
    && 0 < s && WindowStart(cfg) <= s < WindowEnd(points, cfg)
    && exists lit: nat, start: nat, end: nat ::
         FirstLit(points, lit) && CutsBeforeTravel(points, cfg, points[lit], s, start, end)
  }

  function ForgivingSizeScore(i: nat, cfg: Settings): real
  {
    if cfg.nominal == 0 then 0.0
    else 1.0 - ClampReal(Abs(SizeRatio(i, cfg) - 1.0) * 0.35, 0.0, 1.0)
  }

  ghost predicate Near(points: seq<LaserPoint>, cfg: Settings, home: LaserPoint, i: nat)
    requires i < |points|
  {
    cfg.dist(points[i], home) <= HOME_THRESHOLD
  }

  /** The last index of the run at minimal distance from home. */
  ghost predicate IsClosest(points: seq<LaserPoint>, cfg: Settings, home: LaserPoint,
                            start: nat, end: nat, c: nat)
    requires end <= |points|
  {
    && start <= c < end
    && (forall j :: start <= j < end ==> cfg.dist(points[c], home) <= cfg.dist(points[j], home))
    && (forall j :: c < j < end ==> cfg.dist(points[c], home) < cfg.dist(points[j], home))
  }

  /** The stretch from `first` to `last` around index c that stays near home, as long as it can be. */
  ghost predicate NearStretch(points: seq<LaserPoint>, cfg: Settings, home: LaserPoint,
                              start: nat, end: nat, c: nat, first: nat, last: nat)
    requires end <= |points|
  {
    && start <= first <= c <= last < end
    && (forall j :: first <= j <= last ==> Near(points, cfg, home, j))
    && (first == start || !Near(points, cfg, home, first - 1))
    && (last + 1 == end || !Near(points, cfg, home, last + 1))
  }

  function Departure(points: seq<LaserPoint>, cfg: Settings, home: LaserPoint, end: nat): real
    requires 0 < end < |points|
  {
    MaxReal(cfg.dist(points[end - 1], home), cfg.dist(points[end], home))
  }

  function RunScore(points: seq<LaserPoint>, cfg: Settings, home: LaserPoint,
                    start: nat, end: nat, c: nat, first: nat, last: nat): real
    requires start <= first <= c <= last < end < |points|
  {
    (1.0 - ClampReal(cfg.dist(points[c], home) / HOME_THRESHOLD, 0.0, 1.0)) * 0.25
    + ClampReal(Departure(points, cfg, home, end) / TRANSITION_DISTANCE_THRESHOLD, 0.0, 1.0) * 0.20
    + ForgivingSizeScore(last, cfg) * 0.20
    + ClampReal((end - start) as real / BLANK_RUN_SCORE_TARGET, 0.0, 1.0) * 0.10
    + ClampReal((last - first + 1) as real / HOME_DWELL_SCORE_TARGET, 0.0, 1.0) * 0.15
    + (if first > start then 1.0 else 0.0) * 0.10
  }

  /** A run in the window offers the cut s with this score. */
  ghost predicate Offers(points: seq<LaserPoint>, cfg: Settings, home: LaserPoint,
                         start: nat, end: nat, s: nat, score: real)
  {
    && BlankRun(points, start, end)
    && end > WindowStart(cfg) && end - start >= MIN_BLANK_RUN
    && 0 < s && WindowStart(cfg) <= s < WindowEnd(points, cfg) && s + 1 < end
    && Departure(points, cfg, home, end) >= TRANSITION_DISTANCE_THRESHOLD
    && exists c: nat, first: nat ::
         && IsClosest(points, cfg, home, start, end, c)
         && NearStretch(points, cfg, home, start, end, c, first, s)
         && score == RunScore(points, cfg, home, start, end, c, first, s)
  }

  /** A run offers one cut at most. */
  lemma OffersOnce(points: seq<LaserPoint>, cfg: Settings, home: LaserPoint, start: nat,
                   end: nat, s: nat, score: real, end': nat, s': nat, score': real)
    requires Offers(points, cfg, home, start, end, s, score)
    requires Offers(points, cfg, home, start, end', s', score')
    ensures end == end' && s == s' && score == score'
  {
    hide RunScore, Departure;
    assert end == end';
    var c: nat, first: nat :| IsClosest(points, cfg, home, start, end, c)
      && NearStretch(points, cfg, home, start, end, c, first, s)
      && score == RunScore(points, cfg, home, start, end, c, first, s);
    var c': nat, first': nat :| IsClosest(points, cfg, home, start, end, c')
      && NearStretch(points, cfg, home, start, end, c', first', s')
      && score' == RunScore(points, cfg, home, start, end, c', first', s');
    assert c == c';
    StretchIsUnique(points, cfg, home, start, end, c, first, s, first', s');
  }

  lemma StretchIsUnique(points: seq<LaserPoint>, cfg: Settings, home: LaserPoint, start: nat, end: nat,
                        c: nat, first: nat, last: nat, first': nat, last': nat)
    requires end <= |points|
    requires NearStretch(points, cfg, home, start, end, c, first, last)
    requires NearStretch(points, cfg, home, start, end, c, first', last')
    ensures first == first' && last == last'
  {
    hide Near;
  }

  method ClosestToHome(points: seq<LaserPoint>, cfg: Settings, home: LaserPoint, start: nat, end: nat)
    returns (closest: nat, distance: real)
    requires start < end <= |points|
    ensures IsClosest(points, cfg, home, start, end, closest)
    ensures distance == cfg.dist(points[closest], home)
  {
    closest, distance := start, cfg.dist(points[start], home);
    var i := start;
    while i < end
      invariant start <= i <= end && start <= closest < end
      invariant closest < i || closest == start
      invariant distance == cfg.dist(points[closest], home)
      invariant forall j :: start <= j < i ==> distance <= cfg.dist(points[j], home)
      invariant forall j :: closest < j < i ==> distance < cfg.dist(points[j], home)
    {
      if cfg.dist(points[i], home) <= distance {
        closest, distance := i, cfg.dist(points[i], home);
      }
      i := i + 1;
    }
  }

  method StretchAround(points: seq<LaserPoint>, cfg: Settings, home: LaserPoint, start: nat, end: nat, c: nat)
    returns (first: nat, last: nat)
    requires start <= c < end <= |points| && Near(points, cfg, home, c)
    ensures NearStretch(points, cfg, home, start, end, c, first, last)
  {
    first := c;
    while first > start && cfg.dist(points[first - 1], home) <= HOME_THRESHOLD
      invariant start <= first <= c
      invariant forall j :: first <= j <= c ==> Near(points, cfg, home, j)
    {
      first := first - 1;
    }
    last := c;
    while last + 1 < end && cfg.dist(points[last + 1], home) <= HOME_THRESHOLD
      invariant c <= last < end
      invariant forall j :: first <= j <= last ==> Near(points, cfg, home, j)
    {
      last := last + 1;
    }
  }

  /** The end of the blank run that starts at `start`. */
  method RunEnd(points: seq<LaserPoint>, start: nat) returns (end: nat)
    requires start < |points| && IsBlanked(points[start])
    ensures start < end <= |points|
    ensures forall j :: start <= j < end ==> IsBlanked(points[j])
    ensures end < |points| ==> !IsBlanked(points[end])
  {
    end := start + 1;
    while end < |points| && IsBlanked(points[end])
      invariant start < end <= |points|
      invariant forall j :: start <= j < end ==> IsBlanked(points[j])
    {
      end := end + 1;
    }
  }

  /** The cut a run offers, and its score; `found` exactly when it offers one. */
  method RunCut(points: seq<LaserPoint>, cfg: Settings, home: LaserPoint, start: nat, end: nat)
    returns (found: bool, s: nat, score: real)
    requires BlankRun(points, start, end) && end - start >= MIN_BLANK_RUN && end > WindowStart(cfg)
    ensures found ==> Offers(points, cfg, home, start, end, s, score)
    ensures !found ==> forall s': nat, score': real :: !Offers(points, cfg, home, start, end, s', score')
  {
    hide ForgivingSizeScore, ClampReal, MaxReal;
    found, s, score := false, 0, -1.0;
    var closest, distance := ClosestToHome(points, cfg, home, start, end);
    if distance > HOME_THRESHOLD {
      FarRunsOfferNothing(points, cfg, home, start, end, closest);
      return;
    }
    var firstNear, lastNear := StretchAround(points, cfg, home, start, end, closest);
    s := lastNear;
    var departure := MaxReal(cfg.dist(points[end - 1], home), cfg.dist(points[end], home));
    if s >= WindowStart(cfg) && s < WindowEnd(points, cfg) && s > 0 && lastNear + 1 < end
       && departure >= TRANSITION_DISTANCE_THRESHOLD {
      var homeScore := 1.0 - ClampReal(distance / HOME_THRESHOLD, 0.0, 1.0);
      var travelScore := ClampReal(departure / TRANSITION_DISTANCE_THRESHOLD, 0.0, 1.0);
      var sizeScore := ForgivingSizeScore(s, cfg);
      var runLengthScore := ClampReal((end - start) as real / BLANK_RUN_SCORE_TARGET, 0.0, 1.0);
      var homeDwellScore := ClampReal((lastNear - firstNear + 1) as real / HOME_DWELL_SCORE_TARGET, 0.0, 1.0);
      var returnScore := if firstNear > start then 1.0 else 0.0;
      score := homeScore * 0.25 + travelScore * 0.20 + sizeScore * 0.20
             + runLengthScore * 0.10 + homeDwellScore * 0.15 + returnScore * 0.10;
      found := true;
    } else {
      OnlyTheStretchIsOffered(points, cfg, home, start, end, closest, firstNear, lastNear);
    }
  }

  lemma FarRunsOfferNothing(points: seq<LaserPoint>, cfg: Settings, home: LaserPoint,
                            start: nat, end: nat, closest: nat)
    requires end <= |points| && IsClosest(points, cfg, home, start, end, closest)
    requires !Near(points, cfg, home, closest)
    ensures forall s: nat, score: real :: !Offers(points, cfg, home, start, end, s, score)
  {
    hide RunScore;
  }

  lemma OnlyTheStretchIsOffered(points: seq<LaserPoint>, cfg: Settings, home: LaserPoint,
                                start: nat, end: nat, closest: nat, first: nat, last: nat)
    requires end <= |points| && IsClosest(points, cfg, home, start, end, closest)
    requires NearStretch(points, cfg, home, start, end, closest, first, last)
    ensures forall s: nat, score: real :: Offers(points, cfg, home, start, end, s, score) ==> s == last
  {
    hide RunScore;
    forall s: nat, score: real | Offers(points, cfg, home, start, end, s, score)
      ensures s == last
    {
      var c: nat, f: nat :| IsClosest(points, cfg, home, start, end, c)
        && NearStretch(points, cfg, home, start, end, c, f, s)
        && score == RunScore(points, cfg, home, start, end, c, f, s);
      assert c == closest;
      StretchIsUnique(points, cfg, home, start, end, closest, first, last, f, s);
    }
  }

  /** The best cut offered by the runs that start before `upTo`, the earliest of equals; 0 when none
      reaches the threshold. */
  ghost predicate IsBestTransition(points: seq<LaserPoint>, cfg: Settings, home: LaserPoint, upTo: nat,
                                   cut: nat, score: real)
  {
    && (if cut == 0 then score == -1.0
        else score >= BOUNDARY_SCORE_THRESHOLD
             && exists start: nat, end: nat ::
                  && start < upTo && Offers(points, cfg, home, start, end, cut, score)
                  && forall b: nat, e: nat, s: nat, sc: real ::
                       b < start && Offers(points, cfg, home, b, e, s, sc) ==> sc < score)
    && forall b: nat, e: nat, s: nat, sc: real ::
         b < upTo && Offers(points, cfg, home, b, e, s, sc) ==>
           sc <= score || sc < BOUNDARY_SCORE_THRESHOLD
  }

  /** The transition candidate: home is the first lit point of the window. */
  ghost predicate IsTransitionChoice(points: seq<LaserPoint>, cfg: Settings, cut: nat, score: real)
  {
    if exists lit: nat :: lit < WindowEnd(points, cfg) && FirstLit(points, lit) then
      exists lit: nat :: lit < WindowEnd(points, cfg) && FirstLit(points, lit)
        && IsBestTransition(points, cfg, points[lit], WindowEnd(points, cfg), cut, score)
    else cut == 0 && score == -1.0
  }

  /** What an offered cut means for the two frames it separates. */
  lemma OfferCutsBeforeTravel(points: seq<LaserPoint>, cfg: Settings, home: LaserPoint,
                              start: nat, end: nat, s: nat, score: real)
    requires Offers(points, cfg, home, start, end, s, score)
    ensures CutsBeforeTravel(points, cfg, home, s, start, end)
  {
    hide RunScore;
    var c: nat, first: nat :| NearStretch(points, cfg, home, start, end, c, first, s);
    assert Near(points, cfg, home, s) && !Near(points, cfg, home, s + 1);
  }

  lemma ChoiceIsTransition(points: seq<LaserPoint>, cfg: Settings, cut: nat, score: real)
    requires IsTransitionChoice(points, cfg, cut, score) && cut > 0
    ensures IsTransition(points, cfg, cut) && score >= BOUNDARY_SCORE_THRESHOLD
  {
    hide CutsBeforeTravel;
    var lit: nat :| lit < WindowEnd(points, cfg) && FirstLit(points, lit)
      && IsBestTransition(points, cfg, points[lit], WindowEnd(points, cfg), cut, score);
    var start: nat, end: nat :| Offers(points, cfg, points[lit], start, end, cut, score);
    OfferCutsBeforeTravel(points, cfg, points[lit], start, end, cut, score);
  }

  lemma NoRunNoChange(points: seq<LaserPoint>, cfg: Settings, home: LaserPoint, start: nat, next: nat,
                      cut: nat, score: real)
    requires IsBestTransition(points, cfg, home, start, cut, score) && start <= next
    requires forall b: nat, e: nat, s: nat, sc: real ::
               start <= b < next && Offers(points, cfg, home, b, e, s, sc) ==>
                 sc <= score || sc < BOUNDARY_SCORE_THRESHOLD
    ensures IsBestTransition(points, cfg, home, next, cut, score)
  {
    hide Offers;
  }

  lemma BetterRunTakesOver(points: seq<LaserPoint>, cfg: Settings, home: LaserPoint, start: nat, next: nat,
                           cut: nat, score: real, end: nat, s: nat, sc: real)
    requires IsBestTransition(points, cfg, home, start, cut, score) && start < next
    requires Offers(points, cfg, home, start, end, s, sc)
    requires sc >= BOUNDARY_SCORE_THRESHOLD && sc > score
    requires forall b: nat, e: nat, s': nat, sc': real ::
               start <= b < next && Offers(points, cfg, home, b, e, s', sc') ==> s' == s && sc' == sc
    ensures IsBestTransition(points, cfg, home, next, s, sc)
  {
    assert s > 0;
    hide Offers;
  }

  /** Only the first index of a run starts a run. */
  lemma RunsStartOnce(points: seq<LaserPoint>, cfg: Settings, home: LaserPoint, start: nat, end: nat)
    requires start < end <= |points| && (forall j :: start <= j < end ==> IsBlanked(points[j]))
    ensures forall b: nat, e: nat, s: nat, sc: real ::
              start < b < end ==> !Offers(points, cfg, home, b, e, s, sc)
  {
    hide IsClosest, NearStretch, RunScore;
  }

  method FindTransition(points: seq<LaserPoint>, cfg: Settings) returns (cut: nat, score: real)
    requires WindowStart(cfg) < WindowEnd(points, cfg)
    ensures IsTransitionChoice(points, cfg, cut, score)
  {
    hide IsBestTransition;
    cut, score := 0, -1.0;
    var windowEnd := WindowEnd(points, cfg);
    var lit := 0;
    while lit < windowEnd && IsBlanked(points[lit])
      invariant 0 <= lit <= windowEnd
      invariant forall j :: 0 <= j < lit ==> IsBlanked(points[j])
    {
      lit := lit + 1;
    }
    if lit == windowEnd {
      return;
    }
    assert FirstLit(points, lit);
    cut, score := BestTransitionFrom(points, cfg, points[lit]);
  }

  method BestTransitionFrom(points: seq<LaserPoint>, cfg: Settings, home: LaserPoint)
    returns (cut: nat, score: real)
    requires WindowStart(cfg) < WindowEnd(points, cfg)
    ensures IsBestTransition(points, cfg, home, WindowEnd(points, cfg), cut, score)
  {
    cut, score := 0, -1.0;
    var windowEnd := WindowEnd(points, cfg);
    assert IsBestTransition(points, cfg, home, 0, cut, score);
    hide IsBestTransition, Offers;
    var start: nat := 0;
    while start < windowEnd
      invariant start <= |points|
      invariant 0 < start < |points| && IsBlanked(points[start]) ==> !IsBlanked(points[start - 1])
      invariant IsBestTransition(points, cfg, home, start, cut, score)
      decreases |points| - start
    {
      if !IsBlanked(points[start]) {
        LitOffersNothing(points, cfg, home, start);
        NoRunNoChange(points, cfg, home, start, start + 1, cut, score);
        start := start + 1;
        continue;
      }
      var end := RunEnd(points, start);
      cut, score := ConsiderRun(points, cfg, home, start, end, cut, score);
      start := end;
    }
    LaterRunsDoNotMatter(points, cfg, home, windowEnd, start, cut, score);
  }

  lemma LitOffersNothing(points: seq<LaserPoint>, cfg: Settings, home: LaserPoint, start: nat)
    requires start < |points| && !IsBlanked(points[start])
    ensures forall e: nat, s: nat, sc: real :: !Offers(points, cfg, home, start, e, s, sc)
  {
    hide IsClosest, NearStretch, RunScore;
  }

  method ConsiderRun(points: seq<LaserPoint>, cfg: Settings, home: LaserPoint, start: nat, end: nat,
                     cut0: nat, score0: real) returns (cut: nat, score: real)
    requires start < end <= |points| && (forall j :: start <= j < end ==> IsBlanked(points[j]))
    requires start > 0 ==> !IsBlanked(points[start - 1])
    requires end < |points| ==> !IsBlanked(points[end])
    requires IsBestTransition(points, cfg, home, start, cut0, score0)
    ensures IsBestTransition(points, cfg, home, end, cut, score)
  {
    cut, score := cut0, score0;
    RunsStartOnce(points, cfg, home, start, end);
    hide IsBestTransition, IsClosest, NearStretch, RunScore, Departure;
    if end > WindowStart(cfg) && end < |points| && end - start >= MIN_BLANK_RUN {
      var found, s, runScore := RunCut(points, cfg, home, start, end);
      forall e: nat, s': nat, sc: real | Offers(points, cfg, home, start, e, s', sc)
        ensures found && s' == s && sc == runScore
      {
        OfferedByThisRun(points, cfg, home, start, end, e, s', sc);
        if found {
          OffersOnce(points, cfg, home, start, end, s, runScore, e, s', sc);
        }
      }
      hide Offers;
      if found && runScore >= BOUNDARY_SCORE_THRESHOLD && runScore > score {
        BetterRunTakesOver(points, cfg, home, start, end, cut, score, end, s, runScore);
        cut, score := s, runScore;
        return;
      }
    }
    NoRunNoChange(points, cfg, home, start, end, cut, score);
  }

  lemma OfferedByThisRun(points: seq<LaserPoint>, cfg: Settings, home: LaserPoint, start: nat, end: nat,
                         e: nat, s: nat, sc: real)
    requires BlankRun(points, start, end) && Offers(points, cfg, home, start, e, s, sc)
    ensures e == end
  {
    hide IsClosest, NearStretch, RunScore;
  }

  lemma LaterRunsDoNotMatter(points: seq<LaserPoint>, cfg: Settings, home: LaserPoint, windowEnd: nat,
                             upTo: nat, cut: nat, score: real)
    requires windowEnd == WindowEnd(points, cfg) <= upTo
    requires IsBestTransition(points, cfg, home, upTo, cut, score)
    ensures IsBestTransition(points, cfg, home, windowEnd, cut, score)
  {
    hide IsClosest, RunScore;
    assert forall b: nat, e: nat, s: nat, sc: real ::
        Offers(points, cfg, home, b, e, s, sc) ==> b <= s < windowEnd;
  }

  // ----- the boundary -----

  /** The decision between the two candidates. */
  function Decided(loopCut: nat, loopScore: real, transitionCut: nat, transitionScore: real): nat
  {
    var hasLoop := loopCut > 0 && loopScore >= 0.3;
    if transitionCut > 0
       && (!hasLoop || (transitionCut < loopCut && transitionScore >= loopScore - 0.15))
    then transitionCut
    else if hasLoop then loopCut
    else 0
  }

  /** The cut is decided between the best loop closure and the best transition of the window. */
  ghost predicate IsNaturalBoundary(points: seq<LaserPoint>, cfg: Settings, cut: nat)
    requires cfg.nominal > 0
  {
    if |points| < 2 || WindowStart(cfg) >= WindowEnd(points, cfg) then cut == 0
    else exists loopCut: nat, loopScore: real, transitionCut: nat, transitionScore: real ::
      && IsBestLoop(points, cfg, WindowEnd(points, cfg), loopCut, loopScore)
      && IsTransitionChoice(points, cfg, transitionCut, transitionScore)
      && cut == Decided(loopCut, loopScore, transitionCut, transitionScore)
  }

  method FindNaturalBoundary(points: seq<LaserPoint>, cfg: Settings) returns (cut: nat)
    requires cfg.nominal > 0
    ensures IsNaturalBoundary(points, cfg, cut)
  {
    hide IsBestLoop, IsTransitionChoice;
    if |points| < 2 || WindowStart(cfg) >= WindowEnd(points, cfg) {
      return 0;
    }
    var loopCut, loopScore := FindBestLoop(points, cfg);
    var transitionCut, transitionScore := FindTransition(points, cfg);
    if transitionCut > 0 { ChoiceIsTransition(points, cfg, transitionCut, transitionScore); }
    var hasLoop := loopCut > 0 && loopScore >= 0.3;
    var hasTransition := transitionCut > 0 && transitionScore >= BOUNDARY_SCORE_THRESHOLD;
    cut := 0;
    if hasLoop && hasTransition {
      if loopCut < transitionCut {
        cut := loopCut;
      } else if transitionCut < loopCut && transitionScore >= loopScore - 0.15 {
        cut := transitionCut;
      } else {
        cut := loopCut;
      }
    } else if hasTransition {
      cut := transitionCut;
    } else if hasLoop {
      cut := loopCut;
    }
    assert cut == Decided(loopCut, loopScore, transitionCut, transitionScore);
  }

  /** Every natural boundary stays in the window and cuts in the dark: after a blanked point near the
      anchor, or inside a blank run about to leave home. Without one, no loop closure is worth it. */
  lemma BoundaryCutsInTheDark(points: seq<LaserPoint>, cfg: Settings, cut: nat)
    requires cfg.nominal > 0 && IsNaturalBoundary(points, cfg, cut)
    ensures cut <= WindowEnd(points, cfg)
    ensures cut > 0 ==> ClosesLoop(points, cut - 1, cfg) || IsTransition(points, cfg, cut)
    ensures cut == 0 && |points| >= 2 ==>
              forall j: nat :: ClosesLoop(points, j, cfg) ==> LoopScore(points, j, cfg) < 0.3
  {
    hide IsTransitionChoice, LoopScore, IsTransition, PositionScore, IsBestLoop, ClosesLoop;
    if |points| >= 2 && WindowStart(cfg) < WindowEnd(points, cfg) {
      var loopCut: nat, loopScore: real, transitionCut: nat, transitionScore: real :|
        && IsBestLoop(points, cfg, WindowEnd(points, cfg), loopCut, loopScore)
        && IsTransitionChoice(points, cfg, transitionCut, transitionScore)
        && cut == Decided(loopCut, loopScore, transitionCut, transitionScore);
      BestLoopFacts(points, cfg, loopCut, loopScore);
      if transitionCut > 0 {
        ChoiceIsTransition(points, cfg, transitionCut, transitionScore);
        TransitionInWindow(points, cfg, transitionCut);
      }
    } else {
      EmptyWindowHasNoLoop(points, cfg);
    }
  }

  lemma BestLoopFacts(points: seq<LaserPoint>, cfg: Settings, cut: nat, score: real)
    requires cfg.nominal > 0 && IsBestLoop(points, cfg, WindowEnd(points, cfg), cut, score)
    ensures cut > 0 ==> cut <= WindowEnd(points, cfg) && ClosesLoop(points, cut - 1, cfg)
    ensures cut == 0 || score < 0.3 ==>
              forall j: nat :: ClosesLoop(points, j, cfg) ==> LoopScore(points, j, cfg) < 0.3
  {
    hide LoopScore, PositionScore, WindowStart;
  }

  lemma TransitionInWindow(points: seq<LaserPoint>, cfg: Settings, cut: nat)
    requires IsTransition(points, cfg, cut)
    ensures cut < WindowEnd(points, cfg)
  {
  }

  lemma EmptyWindowHasNoLoop(points: seq<LaserPoint>, cfg: Settings)
    requires WindowStart(cfg) >= WindowEnd(points, cfg) || |points| < 2
    ensures |points| >= 2 ==> forall j: nat :: !ClosesLoop(points, j, cfg)
  {
  }

  /** There is exactly one natural boundary: two searches of the same points agree. */
  lemma BoundaryIsUnique(points: seq<LaserPoint>, cfg: Settings, cut: nat, other: nat)
    requires cfg.nominal > 0
    requires IsNaturalBoundary(points, cfg, cut) && IsNaturalBoundary(points, cfg, other)
    ensures cut == other
  {
    if |points| >= 2 && WindowStart(cfg) < WindowEnd(points, cfg) {
      hide IsTransitionChoice, IsBestLoop;
      var a: nat, sa: real, t: nat, st: real :|
        && IsBestLoop(points, cfg, WindowEnd(points, cfg), a, sa)
        && IsTransitionChoice(points, cfg, t, st) && cut == Decided(a, sa, t, st);
      var a': nat, sa': real, t': nat, st': real :|
        && IsBestLoop(points, cfg, WindowEnd(points, cfg), a', sa')
        && IsTransitionChoice(points, cfg, t', st') && other == Decided(a', sa', t', st');
      BestLoopIsUnique(points, cfg, a, sa);
      TransitionChoiceIsUnique(points, cfg, t, st, t', st');
    }
  }

  lemma TransitionChoiceIsUnique(points: seq<LaserPoint>, cfg: Settings, t: nat, st: real, t': nat, st': real)
    requires IsTransitionChoice(points, cfg, t, st) && IsTransitionChoice(points, cfg, t', st')
    ensures t == t' && st == st'
  {
    hide IsBestTransition;
    if exists lit: nat :: lit < WindowEnd(points, cfg) && FirstLit(points, lit) {
      var lit: nat :| lit < WindowEnd(points, cfg) && FirstLit(points, lit)
        && IsBestTransition(points, cfg, points[lit], WindowEnd(points, cfg), t, st);
      var lit': nat :| lit' < WindowEnd(points, cfg) && FirstLit(points, lit')
        && IsBestTransition(points, cfg, points[lit'], WindowEnd(points, cfg), t', st');
      assert lit == lit';
      BestTransitionIsUnique(points, cfg, points[lit], WindowEnd(points, cfg), t, st, t', st');
    }
  }

  lemma BestTransitionIsUnique(points: seq<LaserPoint>, cfg: Settings, home: LaserPoint, upTo: nat,
                               t: nat, st: real, t': nat, st': real)
    requires IsBestTransition(points, cfg, home, upTo, t, st)
    requires IsBestTransition(points, cfg, home, upTo, t', st')
    ensures t == t' && st == st'
  {
    hide Offers;
    if t > 0 && t' > 0 {
      var b: nat, e: nat :| b < upTo && Offers(points, cfg, home, b, e, t, st)
        && forall b': nat, e': nat, s: nat, sc: real ::
             b' < b && Offers(points, cfg, home, b', e', s, sc) ==> sc < st;
      var b': nat, e': nat :| b' < upTo && Offers(points, cfg, home, b', e', t', st')
        && forall b'': nat, e'': nat, s: nat, sc: real ::
             b'' < b' && Offers(points, cfg, home, b'', e'', s, sc) ==> sc < st';
      assert b == b';
      OffersOnce(points, cfg, home, b, e, t, st, e', t', st');
    }
  }

  lemma BestLoopIsUnique(points: seq<LaserPoint>, cfg: Settings, cut: nat, score: real)
    requires cfg.nominal > 0 && IsBestLoop(points, cfg, WindowEnd(points, cfg), cut, score)
    ensures forall c: nat, sc: real {:trigger IsBestLoop(points, cfg, WindowEnd(points, cfg), c, sc)} ::
              IsBestLoop(points, cfg, WindowEnd(points, cfg), c, sc) ==> c == cut && sc == score
  {
    hide LoopScore;
    forall c: nat, sc: real | IsBestLoop(points, cfg, WindowEnd(points, cfg), c, sc)
      ensures c == cut && sc == score
    {
      if c > 0 && cut > 0 {
        assert LoopScore(points, c - 1, cfg) <= score && LoopScore(points, cut - 1, cfg) <= sc;
      }
    }
  }
}
