/** What the boundary search prefers, in the terms of the stream itself: distances, frame sizes and
blank runs instead of scores.

Every candidate has a price in plain numbers, lower being better. The search takes the earliest of
the cheapest loop closures, the earliest of the cheapest transitions, and decides between the two. */
module BoundaryPreferences {
  import opened Arithmetic
  import opened BoundarySearch
  import opened LaserPoints

  // ----- loop closures -----

  /** Cuts are looked for from half the nominal size on, after three forced cuts from nine tenths, up to
      the largest frame. */
  ghost predicate InWindow(points: seq<LaserPoint>, j: nat, cfg: Settings)
  {
    && (if cfg.forcedEmits >= 3 then 10 * j > 9 * cfg.nominal - 10 else 2 * j > cfg.nominal - 2)
    && j < cfg.maxSize && j < |points|
  }

  /** A dark point of the window, less than 0.3 from the anchor. */
  ghost predicate Closure(points: seq<LaserPoint>, j: nat, cfg: Settings)
  {
    InWindow(points, j, cfg) && points[j].r + points[j].g + points[j].b < 0.01
    && cfg.dist(points[j], cfg.anchor) < 0.3
  }

  /** How far a size is from the nominal one. */
  function OffNominal(j: nat, cfg: Settings): nat
  {
    if j < cfg.nominal then cfg.nominal - j else j - cfg.nominal
  }

  ghost predicate BeforeLight(points: seq<LaserPoint>, j: nat)
  {
    j + 1 < |points| && points[j + 1].r + points[j + 1].g + points[j + 1].b >= 0.01
  }

  /** 0.6 for a distance of 0.3 from the anchor, 0.3 for being off by the nominal size, 0.1 unless the
      next point is lit. */
  ghost function ClosurePrice(points: seq<LaserPoint>, j: nat, cfg: Settings): real
    requires j < |points| && cfg.nominal > 0
  {
    0.6 * (MaxReal(cfg.dist(points[j], cfg.anchor), 0.0) / 0.3)
    + 0.3 * (OffNominal(j, cfg) as real / cfg.nominal as real)
    + (if BeforeLight(points, j) then 0.0 else 0.1)
  }

  lemma WindowInNumbers(points: seq<LaserPoint>, j: nat, cfg: Settings)
    ensures InWindow(points, j, cfg) <==> WindowStart(cfg) <= j < WindowEnd(points, cfg)
  {
    var factor := if cfg.forcedEmits >= 3 then 0.9 else 0.5;
    var scaled := cfg.nominal as real * factor;
    assert scaled.Floor as real <= scaled < scaled.Floor as real + 1.0;
    if cfg.forcedEmits >= 3 {
      assert 10.0 * scaled == 9.0 * cfg.nominal as real;
      assert scaled.Floor <= j <==> 10 * j > 9 * cfg.nominal - 10;
    } else {
      assert 2.0 * scaled == cfg.nominal as real;
      assert scaled.Floor <= j <==> 2 * j > cfg.nominal - 2;
    }
  }

  lemma ClosureInNumbers(points: seq<LaserPoint>, j: nat, cfg: Settings)
    ensures Closure(points, j, cfg) <==> ClosesLoop(points, j, cfg)
  {
    hide WindowStart, WindowEnd, InWindow;
    WindowInNumbers(points, j, cfg);
    assert InWindow(points, j, cfg) ==> j < |points| by { WindowIsInside(points, j, cfg); }
  }

  lemma WindowIsInside(points: seq<LaserPoint>, j: nat, cfg: Settings)
    ensures InWindow(points, j, cfg) ==> j < |points|
  {
  }

  lemma RatioOff(j: nat, cfg: Settings)
    requires cfg.nominal > 0
    ensures Abs(SizeRatio(j, cfg) - 1.0) == OffNominal(j, cfg) as real / cfg.nominal as real
  {
    var n, k := cfg.nominal as real, j as real;
    QuotientLessOne(k, n);
    QuotientSign(k - n, n);
  }

  lemma QuotientLessOne(k: real, n: real)
    requires n > 0.0
    ensures k / n - 1.0 == (k - n) / n && -((k - n) / n) == (n - k) / n
  {
    var q, r, t := k / n, (k - n) / n, (n - k) / n;
    assert q * n == k && r * n == k - n && t * n == n - k;
    SameMultiple(q - 1.0, r, n);
    SameMultiple(-r, t, n);
  }

  lemma SameMultiple(a: real, b: real, n: real)
    requires n > 0.0 && a * n == b * n
    ensures a == b
  {
    assert (a - b) * n == 0.0;
  }

  lemma QuotientSign(a: real, n: real)
    requires n > 0.0
    ensures a < 0.0 <==> a / n < 0.0
  {
  }

  /** Scores are prices taken from 1.0. */
  lemma LoopScoreIsPrice(points: seq<LaserPoint>, j: nat, cfg: Settings)
    requires cfg.nominal > 0 && Closure(points, j, cfg)
    ensures LoopScore(points, j, cfg) == 1.0 - ClosurePrice(points, j, cfg)
  {
    hide SizeRatio, Abs, OffNominal, InWindow;
    WindowIsInside(points, j, cfg);
    RatioOff(j, cfg);
  }

  /** The closure the search settles on: below a price of 2, none cheaper, all earlier ones dearer. */
  ghost predicate BestClosure(points: seq<LaserPoint>, i: nat, cfg: Settings)
    requires cfg.nominal > 0
  {
    && Closure(points, i, cfg) && ClosurePrice(points, i, cfg) < 2.0
    && forall j: nat :: Closure(points, j, cfg) ==>
         ClosurePrice(points, i, cfg) <= ClosurePrice(points, j, cfg)
         && (j < i ==> ClosurePrice(points, i, cfg) < ClosurePrice(points, j, cfg))
  }

  /** The loop candidate of the search, told without scores. */
  lemma LoopCutIsCheapest(points: seq<LaserPoint>, cfg: Settings, cut: nat, score: real)
    requires cfg.nominal > 0 && IsBestLoop(points, cfg, WindowEnd(points, cfg), cut, score)
    ensures cut > 0 ==> BestClosure(points, cut - 1, cfg) && score == 1.0 - ClosurePrice(points, cut - 1, cfg)
    ensures cut == 0 ==> forall j: nat :: Closure(points, j, cfg) ==> ClosurePrice(points, j, cfg) >= 2.0
  {
    hide ClosesLoop, LoopScore, ClosurePrice;
    forall j: nat | Closure(points, j, cfg)
      ensures ClosesLoop(points, j, cfg) && j < WindowEnd(points, cfg)
      ensures LoopScore(points, j, cfg) == 1.0 - ClosurePrice(points, j, cfg)
    {
      ClosureInNumbers(points, j, cfg);
      WindowInNumbers(points, j, cfg);
      LoopScoreIsPrice(points, j, cfg);
    }
    if cut > 0 {
      ClosureInNumbers(points, cut - 1, cfg);
    }
  }

  /** What the price means between the chosen closure and any other. Of two equally distant ones before
      points of the same kind, the one nearer nominal size wins; of two equally long frames, the one
      that ends nearer the anchor; and other things equal, the one before a lit point. */
  lemma ClosurePreferences(points: seq<LaserPoint>, cfg: Settings, i: nat, j: nat)
    requires cfg.nominal > 0 && BestClosure(points, i, cfg) && Closure(points, j, cfg)
    ensures var d, e := MaxReal(cfg.dist(points[i], cfg.anchor), 0.0), MaxReal(cfg.dist(points[j], cfg.anchor), 0.0);
            var m, n := OffNominal(i, cfg), OffNominal(j, cfg);
            var p, q := BeforeLight(points, i), BeforeLight(points, j);
            && (d == e && p == q ==> m <= n)
            && (m == n && p == q ==> d <= e)
            && (d == e && m == n && q ==> p)
  {
    hide InWindow, OffNominal, BeforeLight;
    WindowIsInside(points, i, cfg);
    WindowIsInside(points, j, cfg);
    var m, n, all := OffNominal(i, cfg) as real, OffNominal(j, cfg) as real, cfg.nominal as real;
    assert ClosurePrice(points, i, cfg) <= ClosurePrice(points, j, cfg);
    if m > n {
      QuotientSign(n - m, all);
      assert n / all - m / all == (n - m) / all;
    }
  }

  // ----- transitions -----

  /** The run of dark points from `start` to `end` offers a cut before s: at least four points long, near
      home (0.03) on the stretch from `first` to s around its closest point c, and then off to 0.15 or
      farther. */
  ghost predicate Offer(points: seq<LaserPoint>, cfg: Settings, home: LaserPoint,
                        start: nat, end: nat, c: nat, first: nat, s: nat)
  {
    && BlankRun(points, start, end) && start + 4 <= end
    && IsClosest(points, cfg, home, start, end, c)
    && NearStretch(points, cfg, home, start, end, c, first, s)
    && 0 < s && s + 1 < end && InWindow(points, s, cfg)
    && (cfg.dist(points[end - 1], home) >= 0.15 || cfg.dist(points[end], home) >= 0.15)
  }

  /** 0.25 for a closest point 0.03 away from home, 0.07 for being off by the nominal size, but never more
      than 0.2; 0.1 less per 64 points of the run, 0.15 less per 8 points near home, and 0.1 unless the
      beam came back home within the run. */
  ghost function OfferPrice(points: seq<LaserPoint>, cfg: Settings, home: LaserPoint,
                            start: nat, end: nat, c: nat, first: nat, s: nat): real
    requires start <= first <= c <= s < end < |points| && cfg.nominal > 0
  {
    0.25 * (MaxReal(cfg.dist(points[c], home), 0.0) / 0.03)
    + 0.2 * MinReal(0.35 * (OffNominal(s, cfg) as real / cfg.nominal as real), 1.0)
    + 0.1 * (1.0 - Min(end - start, 64) as real / 64.0)
    + 0.15 * (1.0 - Min(s - first + 1, 8) as real / 8.0)
    + (if first > start then 0.0 else 0.1)
  }

  function MinReal(a: real, b: real): real { if a < b then a else b }

  lemma FillingUp(k: nat, n: nat)
    requires n > 0
    ensures ClampReal(k as real / n as real, 0.0, 1.0) == Min(k, n) as real / n as real
  {
    var q := k as real / n as real;
    assert q * n as real == k as real;
    if k < n {
      assert q < 1.0;
    } else {
      assert q >= 1.0;
    }
  }

  lemma ForgivenSize(s: nat, cfg: Settings)
    requires cfg.nominal > 0
    ensures ForgivingSizeScore(s, cfg) == 1.0 - MinReal(0.35 * (OffNominal(s, cfg) as real / cfg.nominal as real), 1.0)
  {
    hide SizeRatio, Abs, OffNominal;
    RatioOff(s, cfg);
    assert OffNominal(s, cfg) as real / cfg.nominal as real >= 0.0;
  }

  lemma RunScoreIsPrice(points: seq<LaserPoint>, cfg: Settings, home: LaserPoint,
                        start: nat, end: nat, c: nat, first: nat, s: nat)
    requires cfg.nominal > 0 && Offer(points, cfg, home, start, end, c, first, s)
    ensures RunScore(points, cfg, home, start, end, c, first, s)
         == 1.0 - OfferPrice(points, cfg, home, start, end, c, first, s)
  {
    hide ForgivingSizeScore, OffNominal, InWindow, BlankRun, IsClosest;
    ForgivenSize(s, cfg);
    FillingUp(end - start, 64);
    FillingUp(s - first + 1, 8);
    HomeIsNear(points, cfg, home, start, end, c, first, s);
    var d := cfg.dist(points[c], home);
    assert ClampReal(d / 0.03, 0.0, 1.0) == MaxReal(d, 0.0) / 0.03;
    assert ClampReal(Departure(points, cfg, home, end) / 0.15, 0.0, 1.0) == 1.0;
  }

  lemma HomeIsNear(points: seq<LaserPoint>, cfg: Settings, home: LaserPoint,
                   start: nat, end: nat, c: nat, first: nat, s: nat)
    requires Offer(points, cfg, home, start, end, c, first, s)
    ensures start <= first <= c <= s < end < |points| && cfg.dist(points[c], home) <= 0.03
  {
    assert Near(points, cfg, home, c);
  }

  /** The run from `start` to `end` offers the cut before s at this price. */
  ghost predicate Offered(points: seq<LaserPoint>, cfg: Settings, home: LaserPoint,
                          start: nat, end: nat, s: nat, price: real)
    requires cfg.nominal > 0
  {
    exists c: nat, first: nat ::
      && Offer(points, cfg, home, start, end, c, first, s)
      && price == OfferPrice(points, cfg, home, start, end, c, first, s)
  }

  lemma OffersInNumbers(points: seq<LaserPoint>, cfg: Settings, home: LaserPoint,
                        start: nat, end: nat, s: nat, score: real)
    requires cfg.nominal > 0
    ensures Offers(points, cfg, home, start, end, s, score) <==>
              Offered(points, cfg, home, start, end, s, 1.0 - score)
  {
    hide RunScore, OfferPrice, WindowStart, WindowEnd, InWindow, Near, IsBlanked;
    WindowInNumbers(points, s, cfg);
    if Offers(points, cfg, home, start, end, s, score) {
      var c: nat, first: nat :| IsClosest(points, cfg, home, start, end, c)
        && NearStretch(points, cfg, home, start, end, c, first, s)
        && score == RunScore(points, cfg, home, start, end, c, first, s);
      assert Offer(points, cfg, home, start, end, c, first, s);
      RunScoreIsPrice(points, cfg, home, start, end, c, first, s);
    }
    if Offered(points, cfg, home, start, end, s, 1.0 - score) {
      var c: nat, first: nat :|
        && Offer(points, cfg, home, start, end, c, first, s)
        && 1.0 - score == OfferPrice(points, cfg, home, start, end, c, first, s);
      RunScoreIsPrice(points, cfg, home, start, end, c, first, s);
    }
  }

  /** The transition the search settles on, at a price of at most 0.45: home is the first lit point; no
      run offers a cheaper cut, and every earlier run a dearer one. */
  ghost predicate BestTransition(points: seq<LaserPoint>, cfg: Settings, t: nat, price: real)
    requires cfg.nominal > 0
  {
    price <= 0.45
    && exists lit: nat, start: nat, end: nat ::
         && FirstLit(points, lit) && lit < cfg.maxSize
         && Offered(points, cfg, points[lit], start, end, t, price)
         && CheapestOffer(points, cfg, points[lit], start, price)
  }

  ghost predicate CheapestOffer(points: seq<LaserPoint>, cfg: Settings, home: LaserPoint,
                                start: nat, price: real)
    requires cfg.nominal > 0
  {
    forall b: nat, e: nat, s: nat, other: real :: Offered(points, cfg, home, b, e, s, other) ==>
      price <= other && (b < start ==> price < other)
  }

  lemma OfferStartsInWindow(points: seq<LaserPoint>, cfg: Settings, home: LaserPoint,
                            start: nat, end: nat, s: nat, price: real)
    requires cfg.nominal > 0 && Offered(points, cfg, home, start, end, s, price)
    ensures 0 < s && start < WindowEnd(points, cfg)
  {
    hide OfferPrice;
    WindowInNumbers(points, s, cfg);
  }

  /** The transition candidate of the search, told without scores. */
  lemma TransitionIsCheapest(points: seq<LaserPoint>, cfg: Settings, cut: nat, score: real)
    requires cfg.nominal > 0 && IsTransitionChoice(points, cfg, cut, score)
    ensures cut > 0 ==> BestTransition(points, cfg, cut, 1.0 - score)
    ensures cut == 0 ==> forall t: nat, price: real :: !BestTransition(points, cfg, t, price)
  {
    hide Offers, Offered, IsBestTransition;
    if exists lit: nat :: lit < WindowEnd(points, cfg) && FirstLit(points, lit) {
      var lit: nat :| lit < WindowEnd(points, cfg) && FirstLit(points, lit)
        && IsBestTransition(points, cfg, points[lit], WindowEnd(points, cfg), cut, score);
      BestOfHome(points, cfg, lit, cut, score);
    }
  }

  lemma BestOfHome(points: seq<LaserPoint>, cfg: Settings, lit: nat, cut: nat, score: real)
    requires cfg.nominal > 0 && lit < WindowEnd(points, cfg) && FirstLit(points, lit)
    requires IsBestTransition(points, cfg, points[lit], WindowEnd(points, cfg), cut, score)
    ensures cut > 0 ==> BestTransition(points, cfg, cut, 1.0 - score)
    ensures cut == 0 ==> forall t: nat, price: real :: !BestTransition(points, cfg, t, price)
  {
    hide Offers, Offered;
    var home := points[lit];
    forall b: nat, e: nat, s: nat, other: real | Offered(points, cfg, home, b, e, s, other)
      ensures b < WindowEnd(points, cfg) && Offers(points, cfg, home, b, e, s, 1.0 - other)
    {
      OfferStartsInWindow(points, cfg, home, b, e, s, other);
      OffersInNumbers(points, cfg, home, b, e, s, 1.0 - other);
      assert 1.0 - (1.0 - other) == other;
    }
    if cut > 0 {
      var start: nat, end: nat :| start < WindowEnd(points, cfg) && Offers(points, cfg, home, start, end, cut, score)
        && forall b: nat, e: nat, s: nat, sc: real ::
             b < start && Offers(points, cfg, home, b, e, s, sc) ==> sc < score;
      OffersInNumbers(points, cfg, home, start, end, cut, score);
      assert CheapestOffer(points, cfg, home, start, 1.0 - score);
    }
  }

  lemma BestTransitionIsOne(points: seq<LaserPoint>, cfg: Settings, t: nat, price: real, t': nat, price': real)
    requires cfg.nominal > 0
    requires BestTransition(points, cfg, t, price) && BestTransition(points, cfg, t', price')
    ensures t == t' && price == price' && t > 0
  {
    hide Offers, Offered;
    var lit: nat, start: nat, end: nat :| FirstLit(points, lit) && lit < cfg.maxSize
      && Offered(points, cfg, points[lit], start, end, t, price)
      && CheapestOffer(points, cfg, points[lit], start, price);
    var lit': nat, start': nat, end': nat :| FirstLit(points, lit') && lit' < cfg.maxSize
      && Offered(points, cfg, points[lit'], start', end', t', price')
      && CheapestOffer(points, cfg, points[lit'], start', price');
    assert lit == lit' && start == start';
    OfferStartsInWindow(points, cfg, points[lit], start, end, t, price);
    OffersInNumbers(points, cfg, points[lit], start, end, t, 1.0 - price);
    OffersInNumbers(points, cfg, points[lit], start, end', t', 1.0 - price');
    assert 1.0 - (1.0 - price) == price && 1.0 - (1.0 - price') == price';
    OffersOnce(points, cfg, points[lit], start, end, t, 1.0 - price, end', t', 1.0 - price');
  }

  // ----- the decision -----

  ghost predicate SolidClosure(points: seq<LaserPoint>, i: nat, cfg: Settings)
    requires cfg.nominal > 0
  {
    BestClosure(points, i, cfg) && ClosurePrice(points, i, cfg) <= 0.7
  }

  ghost predicate NoSolidClosure(points: seq<LaserPoint>, cfg: Settings)
    requires cfg.nominal > 0
  {
    forall i: nat :: !SolidClosure(points, i, cfg)
  }

  ghost predicate NoTransition(points: seq<LaserPoint>, cfg: Settings)
    requires cfg.nominal > 0
  {
    forall t: nat, price: real :: !BestTransition(points, cfg, t, price)
  }

  /** Where the stream is cut: after the solid closure, unless the transition comes before that cut at a
      price no more than 0.15 above; a later transition never takes the cut from an earlier solid
      closure. With only one of the two, there; with neither, nowhere. */
  lemma BoundaryRule(points: seq<LaserPoint>, cfg: Settings, cut: nat, i: nat, t: nat, price: real)
    requires cfg.nominal > 0 && |points| >= 2 && IsNaturalBoundary(points, cfg, cut)
    ensures SolidClosure(points, i, cfg) && BestTransition(points, cfg, t, price) ==>
              cut == if t <= i && price <= ClosurePrice(points, i, cfg) + 0.15 then t else i + 1
    ensures SolidClosure(points, i, cfg) && NoTransition(points, cfg) ==> cut == i + 1
    ensures BestTransition(points, cfg, t, price) && NoSolidClosure(points, cfg) ==> cut == t
    ensures NoSolidClosure(points, cfg) && NoTransition(points, cfg) ==> cut == 0
  {
    hide IsBestLoop, IsTransitionChoice, BestTransition, BestClosure, ClosurePrice, WindowStart, WindowEnd;
    if WindowStart(cfg) < WindowEnd(points, cfg) {
      var a: nat, sa: real, b: nat, sb: real :|
        && IsBestLoop(points, cfg, WindowEnd(points, cfg), a, sa)
        && IsTransitionChoice(points, cfg, b, sb) && cut == Decided(a, sa, b, sb);
      LoopCutIsCheapest(points, cfg, a, sa);
      TransitionIsCheapest(points, cfg, b, sb);
      if SolidClosure(points, i, cfg) { SolidClosureIsOne(points, cfg, i, a); }
      if a > 0 && sa >= 0.3 { assert SolidClosure(points, a - 1, cfg); }
      if BestTransition(points, cfg, t, price) {
        if b > 0 { BestTransitionIsOne(points, cfg, t, price, b, 1.0 - sb); }
      }
    } else {
      EmptyWindow(points, cfg, i, t, price);
    }
  }

  lemma SolidClosureIsOne(points: seq<LaserPoint>, cfg: Settings, i: nat, cut: nat)
    requires cfg.nominal > 0 && SolidClosure(points, i, cfg)
    requires cut > 0 ==> BestClosure(points, cut - 1, cfg)
    requires cut == 0 ==> forall j: nat :: Closure(points, j, cfg) ==> ClosurePrice(points, j, cfg) >= 2.0
    ensures cut == i + 1
  {
    hide Closure, ClosurePrice;
  }

  lemma EmptyWindow(points: seq<LaserPoint>, cfg: Settings, i: nat, t: nat, price: real)
    requires cfg.nominal > 0 && WindowStart(cfg) >= WindowEnd(points, cfg)
    ensures !SolidClosure(points, i, cfg) && !BestTransition(points, cfg, t, price)
  {
    hide WindowStart, WindowEnd, InWindow, OfferPrice, BlankRun, IsClosest, NearStretch;
    WindowInNumbers(points, i, cfg);
    WindowInNumbers(points, t, cfg);
  }
}
