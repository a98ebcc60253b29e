/** Adapting and packing a frame for a Helios device on USB: `DirectUsbConnection::
writeFrameExtended` in src/helios/HeliosController.cpp, up to the bulk transfer.

The vendor limits come from a header outside this model, so they are a parameter. */
module HeliosFrame {
  import opened Bytes

  datatype Limits = Limits(maxPoints: nat, minPps: nat, maxPps: nat)

  /** What the two-byte count and rate fields need of the limits. */
  predicate Plausible(l: Limits)
  {
    1 <= l.maxPoints < 0x1_0000 && 1 <= l.minPps <= l.maxPps < 0x1_0000
  }

  datatype PointExt = PointExt(x: Word, y: Word, r: Word, g: Word, b: Word, i: Word)

  datatype Refusal = DeviceClosed | NullPoints | PpsTooLow | TooManyPoints

  /** An accepted frame: `count` packed points at `rate`, every source point repeated `repeat`
      times and every `stride`-th of the repeated points kept. */
  datatype Plan = Plan(repeat: nat, stride: nat, count: nat, rate: nat)

  datatype Verdict = Refused(reason: Refusal) | Accepted(plan: Plan)

  // ----- choosing a plan -----

  /** Unsigned division. The lemmas below are all that the proofs use of it. */
  function Over(a: nat, m: nat): nat
    requires m >= 1
  {
    a / m
  }

  function RepeatFactor(l: Limits, pps: nat): nat
    requires pps > 0
  {
    if pps < l.minPps then Over(l.minPps, pps) + 1 else 1
  }

  function Stride(l: Limits, pps: nat, n: nat): (f: nat)
    requires Plausible(l)
    ensures f >= 1
  {
    if pps > l.maxPps || n > l.maxPoints then
      var forRate := Over(pps, l.maxPps) + 1;
      var forCount := Over(n, l.maxPoints) + 1;
      if forRate >= forCount then forRate else forCount
    else 1
  }

  /** Transfers of certain lengths upset the device's controller. */
  predicate AwkwardLength(n: nat) { (n - 45) % 64 == 0 }

  /** `pps` scaled from n points to n - 1, to the nearest whole rate. */
  function Rescaled(pps: nat, n: nat): nat
    requires n >= 1
  {
    Over(2 * (pps * (n - 1)) + n, 2 * n)
  }

  function Trimmed(repeat: nat, stride: nat, n: nat, pps: nat): Plan
  {
    if n >= 1 && AwkwardLength(n) then Plan(repeat, stride, n - 1, Rescaled(pps, n))
    else Plan(repeat, stride, n, pps)
  }

  /** The decision on n points at `pps`, n and pps being what the caller passed. */
  function Adapt(l: Limits, pps: nat, n: nat): Verdict
    requires Plausible(l)
  {
    if n == 0 then Refused(NullPoints)
    else if pps == 0 then Refused(PpsTooLow)
    else
      var repeat := RepeatFactor(l, pps);
      if pps < l.minPps && n * repeat > l.maxPoints then Refused(PpsTooLow)
      else
        Sampled(l, repeat, pps * repeat, n * repeat)
  }

  function Sampled(l: Limits, repeat: nat, rate: nat, count: nat): Verdict
    requires Plausible(l)
  {
    var stride := Stride(l, rate, count);
    if stride > 1 && Over(rate, stride) < l.minPps then Refused(TooManyPoints)
    else Accepted(Trimmed(repeat, stride, Over(count, stride), Over(rate, stride)))
  }

  // ----- what the factors are -----

  lemma TimesMonotone(a: nat, b: nat, m: nat)
    requires a <= b
    ensures a * m <= b * m
  {
  }

  lemma QuotientBelow(a: nat, f: nat, m: nat)
    requires f >= 1 && m >= 1
    ensures a < f * m <==> Over(a, m) < f
  {
    var q := Over(a, m);
    assert a == q * m + a % m;
    if q < f {
      TimesMonotone(q + 1, f, m);
      assert (q + 1) * m == q * m + m;
    } else {
      TimesMonotone(f, q, m);
    }
  }

  lemma DividesBelow(a: nat, f: nat, m: nat)
    requires f >= 1 && m >= 1
    ensures a < f * m <==> Over(a, m) < f
    ensures a < f * m <==> Over(a, f) < m
  {
    hide Over;
    QuotientBelow(a, f, m);
    assert f * m == m * f;
    QuotientBelow(a, m, f);
  }

  lemma OverTimes(a: nat, m: nat)
    requires m >= 1
    ensures Over(a, m) * m <= a < Over(a, m) * m + m
  {
  }

  lemma OverOne(a: nat)
    ensures Over(a, 1) == a
  {
  }

  lemma QuotientMonotone(a: nat, b: nat, m: nat)
    requires a <= b && m >= 1
    ensures Over(a, m) <= Over(b, m)
  {
    hide Over;
    QuotientBelow(a, Over(b, m) + 1, m);
    QuotientBelow(b, Over(b, m) + 1, m);
  }

  /** A frame below the minimum rate is repeated the least number of times that takes its rate
      past the minimum. */
  lemma RepeatIsLeast(l: Limits, pps: nat, k: nat)
    requires Plausible(l) && 0 < pps < l.minPps && k >= 1
    ensures l.minPps < pps * k <==> RepeatFactor(l, pps) <= k
  {
    hide Over;
    DividesBelow(l.minPps, k, pps);
    assert k * pps == pps * k;
  }

  /** Points are skipped only when the frame breaks a limit, and then with the least stride that
      brings both the rate and the count strictly under their limits. */
  lemma StrideIsLeast(l: Limits, pps: nat, n: nat, k: nat)
    requires Plausible(l) && (pps > l.maxPps || n > l.maxPoints) && k >= 1
    ensures Stride(l, pps, n) >= 2
    ensures (Over(pps, k) < l.maxPps && Over(n, k) < l.maxPoints) <==> Stride(l, pps, n) <= k
  {
    hide Over;
    DividesBelow(pps, k, l.maxPps);
    DividesBelow(n, k, l.maxPoints);
    QuotientBelow(pps, 1, l.maxPps);
    QuotientBelow(n, 1, l.maxPoints);
  }

  // ----- every accepted frame is within the limits -----

  lemma RescaledSandwich(pps: nat, n: nat)
    requires n >= 1
    ensures var kept := Rescaled(pps, n) * n;
            2 * kept <= 2 * (pps * n) - 2 * pps + n < 2 * kept + 2 * n
  {
    hide Over;
    var scaled := pps * (n - 1);
    OverTimes(2 * scaled + n, 2 * n);
    OneLess(pps, n);
    DoubleProduct(Over(2 * scaled + n, 2 * n), n);
  }

  lemma OneLess(a: nat, n: nat)
    requires n >= 1
    ensures a * (n - 1) == a * n - a
  {
  }

  lemma DoubleProduct(r: nat, n: nat)
    ensures r * (2 * n) == 2 * (r * n)
  {
  }

  lemma RescaledRate(pps: nat, n: nat)
    requires n >= 1
    ensures Rescaled(pps, n) <= pps
    ensures var error: int := 2 * (Rescaled(pps, n) * n - pps * (n - 1)); -1 * n < error <= n
    ensures n >= 45 && pps <= 22 ==> Rescaled(pps, n) == pps
    ensures n < 2 * pps ==> Rescaled(pps, n) < pps
  {
    RescaledSandwich(pps, n);
    hide Rescaled;
    var r := Rescaled(pps, n);
    OneLess(pps, n);
    assert (pps + 1) * n == pps * n + n;
    if r > pps {
      TimesMonotone(pps + 1, r, n);
      assert false;
    } else if r < pps {
      TimesMonotone(r + 1, pps, n);
      assert (r + 1) * n == r * n + n;
    }
  }

  /** Rescaling from a higher rate never lands lower. */
  lemma RescaledMonotone(low: nat, high: nat, n: nat)
    requires n >= 1 && low <= high
    ensures Rescaled(low, n) <= Rescaled(high, n)
  {
    hide Over;
    TimesMonotone(low, high, n - 1);
    QuotientMonotone(2 * (low * (n - 1)) + n, 2 * (high * (n - 1)) + n, 2 * n);
  }

  /** Before the awkward lengths are dealt with: count and rate within every limit. */
  lemma ScaledWithinLimits(l: Limits, pps: nat, n: nat)
    requires Plausible(l) && Adapt(l, pps, n).Accepted?
    ensures var repeat := RepeatFactor(l, pps);
            var stride := Stride(l, pps * repeat, n * repeat);
            Over(n * repeat, stride) <= l.maxPoints && l.minPps <= Over(pps * repeat, stride) <= l.maxPps
  {
    hide Over;
    var repeat := RepeatFactor(l, pps);
    var points, rate := n * repeat, pps * repeat;
    var stride := Stride(l, rate, points);
    if pps < l.minPps {
      RepeatIsLeast(l, pps, repeat);
    }
    if rate > l.maxPps || points > l.maxPoints {
      StrideIsLeast(l, rate, points, stride);
    } else {
      OverOne(points);
      OverOne(rate);
    }
  }

  /** Every accepted frame keeps the point limit and the maximum rate, and fits the packed
      16-bit fields. Its rate is at least the minimum rate rescaled by one point. */
  lemma AcceptedWithinLimits(l: Limits, pps: nat, n: nat)
    requires Plausible(l) && Adapt(l, pps, n).Accepted?
    ensures var plan := Adapt(l, pps, n).plan;
            plan.count <= l.maxPoints && plan.rate <= l.maxPps && plan.repeat >= 1 && plan.stride >= 1
    ensures l.minPps <= 22 ==> l.minPps <= Adapt(l, pps, n).plan.rate
  {
    hide Over, Rescaled;
    ScaledWithinLimits(l, pps, n);
    var repeat := RepeatFactor(l, pps);
    var stride := Stride(l, pps * repeat, n * repeat);
    var points, rate := Over(n * repeat, stride), Over(pps * repeat, stride);
    if points >= 1 && AwkwardLength(points) {
      RescaledRate(rate, points);
      RescaledMonotone(l.minPps, rate, points);
      RescaledRate(l.minPps, points);
    }
  }

  /** The minimum rate is kept by every frame exactly when it is at most 22 (or when no frame is
      long enough to be trimmed): the condition on the vendor's constants. */
  lemma MinimumRateKeptExactly(l: Limits)
    requires Plausible(l) && l.maxPoints >= 45
    ensures (forall pps: nat, n: nat ::
               var verdict := Adapt(l, pps, n);
               verdict.Accepted? ==> l.minPps <= verdict.plan.rate)
        <==> l.minPps <= 22
  {
    if l.minPps <= 22 {
      forall pps: nat, n: nat | Adapt(l, pps, n).Accepted?
        ensures l.minPps <= Adapt(l, pps, n).plan.rate
      {
        AcceptedWithinLimits(l, pps, n);
      }
    } else {
      TrimmedBelowMinimum(l);
      var verdict := Adapt(l, l.minPps, 45);
      assert verdict.Accepted? && verdict.plan.rate < l.minPps;
    }
  }

  /** A 45-point frame at a minimum rate of 23 or more is sent below that rate. */
  lemma TrimmedBelowMinimum(l: Limits)
    requires Plausible(l) && l.maxPoints >= 45 && l.minPps >= 23
    ensures var verdict := Adapt(l, l.minPps, 45);
            verdict.Accepted? && verdict.plan.count == 44 && verdict.plan.rate < l.minPps
  {
    hide Over, Rescaled;
    assert RepeatFactor(l, l.minPps) == 1 && Stride(l, l.minPps * 1, 45 * 1) == 1;
    OverOne(45);
    OverOne(l.minPps);
    RescaledRate(l.minPps, 45);
  }

  // ----- when a frame is refused -----

  /** After repetition, some stride brings rate and count under their limits and keeps the minimum
      rate. */
  ghost predicate CanBeSampled(l: Limits, rate: nat, count: nat)
  {
    exists k: nat :: k >= 1 && Over(rate, k) < l.maxPps && Over(count, k) < l.maxPoints && Over(rate, k) >= l.minPps
  }

  /** A frame is refused for having too many points exactly when, repeated as often as its rate needs,
      it breaks the maximum rate or the point limit and no stride mends that while keeping the
      minimum rate. The other refusals come first: no points, no rate, a slow frame whose
      repetition breaks the point limit. */
  lemma TooManyPointsExactly(l: Limits, pps: nat, n: nat)
    requires Plausible(l)
    ensures Adapt(l, pps, n) == Refused(TooManyPoints) <==>
            && n >= 1 && pps >= 1
            && var rate, count := pps * RepeatFactor(l, pps), n * RepeatFactor(l, pps);
               && (pps < l.minPps ==> count <= l.maxPoints)
               && (rate > l.maxPps || count > l.maxPoints)
               && !CanBeSampled(l, rate, count)
  {
    hide Over, RepeatFactor, CanBeSampled, Stride;
    if n >= 1 && pps >= 1 {
      var rate, count := pps * RepeatFactor(l, pps), n * RepeatFactor(l, pps);
      if rate > l.maxPps || count > l.maxPoints {
        StrideIsLeast(l, rate, count, Stride(l, rate, count));
        NoStrideFits(l, rate, count);
      } else {
        FittingFramesAreNotSampled(l, rate, count);
      }
    }
  }

  lemma FittingFramesAreNotSampled(l: Limits, rate: nat, count: nat)
    requires Plausible(l) && rate <= l.maxPps && count <= l.maxPoints
    ensures Stride(l, rate, count) == 1
  {
  }

  lemma NoStrideFits(l: Limits, rate: nat, count: nat)
    requires Plausible(l) && (rate > l.maxPps || count > l.maxPoints)
    ensures Over(rate, Stride(l, rate, count)) < l.minPps <==> !CanBeSampled(l, rate, count)
  {
    hide Over;
    var stride := Stride(l, rate, count);
    StrideIsLeast(l, rate, count, stride);
    hide Stride;
    if Over(rate, stride) < l.minPps {
      forall k: nat | k >= 1 && Over(rate, k) < l.maxPps && Over(count, k) < l.maxPoints
        ensures Over(rate, k) < l.minPps
      {
        StrideIsLeast(l, rate, count, k);
        LongerStrideIsSlower(rate, stride, k);
      }
    }
  }

  lemma LongerStrideIsSlower(pps: nat, short: nat, long: nat)
    requires 1 <= short <= long
    ensures Over(pps, long) <= Over(pps, short)
  {
    hide Over;
    var m := Over(pps, short) + 1;
    DividesBelow(pps, short, m);
    TimesMonotone(short, long, m);
    DividesBelow(pps, long, m);
  }

  /** Sampling leaves nothing exactly when the rate is at least the maximum rate times the number
      of points (and above the maximum): such a frame is accepted and sent with no points. A frame
      that was repeated always keeps some. */
  lemma ZeroPointFrameExactly(l: Limits, pps: nat, n: nat)
    requires Plausible(l) && l.maxPoints >= 2 && Adapt(l, pps, n).Accepted?
    ensures Adapt(l, pps, n).plan.count == 0 <==> pps > l.maxPps && pps >= n * l.maxPps
  {
    hide Over;
    var repeat := RepeatFactor(l, pps);
    var rate, count := pps * repeat, n * repeat;
    var stride := Stride(l, rate, count);
    assert Adapt(l, pps, n).plan == Trimmed(repeat, stride, Over(count, stride), Over(rate, stride));
    assert Adapt(l, pps, n).plan.count == 0 <==> Over(count, stride) == 0;
    TimesMonotone(1, repeat, n);
    assert repeat * n == n * repeat;
    QuotientBelow(count, 1, stride);
    if rate > l.maxPps || count > l.maxPoints {
      NothingSurvivesExactly(l, rate, count);
      SlowFramesAreNoFaster(l, pps, n, repeat);
    }
  }

  /** Repetition multiplies rate and count alike, so it does not change how they compare. */
  lemma SlowFramesAreNoFaster(l: Limits, pps: nat, n: nat, repeat: nat)
    requires Plausible(l) && n >= 1 && repeat >= 1 && (pps >= l.minPps ==> repeat == 1)
    ensures pps * repeat > l.maxPps && pps * repeat >= n * repeat * l.maxPps
       <==> pps > l.maxPps && pps >= n * l.maxPps
  {
    if repeat == 1 {
      assert pps * 1 == pps && n * 1 == n;
    } else {
      TimesMonotone(1, n, l.maxPps);
      assert pps < n * l.maxPps;
      TimesMonotone(pps + 1, n * l.maxPps, repeat);
      assert (pps + 1) * repeat == pps * repeat + repeat;
      Reassociate(n, l.maxPps, repeat);
    }
  }

  lemma Reassociate(a: nat, b: nat, c: nat)
    ensures a * b * c == a * c * b
  {
  }

  lemma NothingSurvivesExactly(l: Limits, pps: nat, n: nat)
    requires Plausible(l) && l.maxPoints >= 2 && n >= 1 && (pps > l.maxPps || n > l.maxPoints)
    ensures n < Stride(l, pps, n) <==> pps > l.maxPps && pps >= n * l.maxPps
  {
    StrideIsLeast(l, pps, n, n);
    hide Stride, Over;
    QuotientOfItself(n);
    QuotientBelow(pps, n, l.maxPps);
    assert l.maxPps * n == n * l.maxPps;
    DividesBelow(pps, n, l.maxPps);
    if n >= 2 { TimesMonotone(2, n, l.maxPps); }
  }

  lemma QuotientOfItself(n: nat)
    requires n >= 1
    ensures Over(n, n) == 1
  {
    hide Over;
    QuotientBelow(n, 1, n);
    QuotientBelow(n, 2, n);
  }

  lemma ZeroPointFrameOccurs(l: Limits)
    requires Plausible(l) && l.maxPoints >= 2 && 3 * l.minPps <= 2 * l.maxPps
    ensures Adapt(l, 2 * l.maxPps, 1) == Accepted(Plan(1, 3, 0, Over(2 * l.maxPps, 3)))
  {
    hide Over;
    QuotientBelow(2 * l.maxPps, 2, l.maxPps);
    QuotientBelow(2 * l.maxPps, 3, l.maxPps);
    QuotientBelow(1, 1, l.maxPoints);
    QuotientBelow(1, 1, 3);
    DividesBelow(2 * l.maxPps, 3, l.minPps);
  }

  // ----- where the packed points come from -----

  /** The source point that packed point k shows. */
  function SourceIndex(plan: Plan, k: nat): nat
    requires plan.repeat >= 1
  {
    Over(k * plan.stride, plan.repeat)
  }

  /** Every packed point is a point of the frame, packed points follow the order of the frame, and
      without repetition no source point is sent twice. */
  lemma SourcesInOrder(l: Limits, pps: nat, n: nat, j: nat, k: nat)
    requires Plausible(l) && Adapt(l, pps, n).Accepted?
    requires j < k < Adapt(l, pps, n).plan.count
    ensures var plan := Adapt(l, pps, n).plan;
            plan.repeat >= 1 && SourceIndex(plan, j) <= SourceIndex(plan, k) < n
            && (plan.repeat == 1 ==> SourceIndex(plan, j) < SourceIndex(plan, k))
  {
    hide Over, Adapt;
    AcceptedWithinLimits(l, pps, n);
    var plan := Adapt(l, pps, n).plan;
    SourceInRange(l, pps, n, k);
    assert j * plan.stride <= k * plan.stride;
    QuotientMonotone(j * plan.stride, k * plan.stride, plan.repeat);
    if plan.repeat == 1 {
      TimesMonotone(j + 1, k, plan.stride);
      assert (j + 1) * plan.stride == j * plan.stride + plan.stride;
      OverOne(j * plan.stride);
      OverOne(k * plan.stride);
    }
  }

  /** The read of packed point k stays inside the repeated points, hence inside the frame. */
  lemma SourceInRange(l: Limits, pps: nat, n: nat, k: nat)
    requires Plausible(l) && Adapt(l, pps, n).Accepted? && k < Adapt(l, pps, n).plan.count
    ensures var plan := Adapt(l, pps, n).plan;
            plan.repeat >= 1 && plan.repeat == RepeatFactor(l, pps)
            && k * plan.stride < n * plan.repeat && SourceIndex(plan, k) < n
  {
    hide Over, Rescaled, Stride, RepeatFactor;
    AcceptedWithinLimits(l, pps, n);
    var plan := Adapt(l, pps, n).plan;
    var total := n * plan.repeat;
    assert k < Over(total, plan.stride);
    QuotientBelow(total, k + 1, plan.stride);
    assert (k + 1) * plan.stride == k * plan.stride + plan.stride;
    QuotientBelow(k * plan.stride, n, plan.repeat);
  }

  /** A repeated frame takes exactly as long as the caller asked for: points over rate is unchanged.
      When the length is awkward it has one point fewer, at a rate scaled to match. */
  lemma RepetitionKeepsDuration(l: Limits, pps: nat, n: nat)
    requires Plausible(l) && 2 * l.minPps <= l.maxPps + 1
    requires 0 < pps < l.minPps && Adapt(l, pps, n).Accepted?
    ensures var plan := Adapt(l, pps, n).plan;
            plan.stride == 1 && plan.repeat >= 2
            && (!AwkwardLength(n * plan.repeat) ==> plan.count * pps == n * plan.rate)
            && (AwkwardLength(n * plan.repeat) ==>
                  plan.count == n * plan.repeat - 1
                  && var error: int := 2 * (plan.rate * (n * plan.repeat) - pps * plan.repeat * plan.count);
                     -1 * (n * plan.repeat) < error <= n * plan.repeat)
  {
    hide Over, Rescaled, Adapt, Stride, RepeatFactor;
    var repeat := RepeatFactor(l, pps);
    RepeatedRateIsBelowTwice(l, pps);
    var points, rate := n * repeat, pps * repeat;
    TrimmedPlan(l, pps, n);
    assert points >= 1 by { TimesMonotone(1, n, repeat); }
    assert points * pps == n * rate;
    OneLess(rate, points);
    RescaledRate(rate, points);
  }

  lemma TrimmedPlan(l: Limits, pps: nat, n: nat)
    requires Plausible(l) && 2 * l.minPps <= l.maxPps + 1
    requires 0 < pps < l.minPps && Adapt(l, pps, n).Accepted?
    ensures var repeat := RepeatFactor(l, pps);
            n >= 1 && Adapt(l, pps, n).plan == Trimmed(repeat, 1, n * repeat, pps * repeat)
  {
    RepeatedRateIsBelowTwice(l, pps);
    hide Over, Rescaled, RepeatFactor;
    OverOne(n * RepeatFactor(l, pps));
    OverOne(pps * RepeatFactor(l, pps));
  }

  /** A frame that is repeated but not sampled shows each source point `repeat` times in a row. */
  lemma RepeatedInARow(plan: Plan, i: nat, c: nat)
    requires plan.stride == 1 && c < plan.repeat
    ensures SourceIndex(plan, i * plan.repeat + c) == i
  {
    RepeatedSource(i, c, plan.repeat);
  }

  lemma RepeatedRateIsBelowTwice(l: Limits, pps: nat)
    requires Plausible(l) && 0 < pps < l.minPps
    ensures var repeat := RepeatFactor(l, pps); repeat >= 2 && l.minPps < pps * repeat < 2 * l.minPps
  {
    var q := Over(l.minPps, pps);
    assert l.minPps == q * pps + l.minPps % pps;
    assert pps * (q + 1) == q * pps + pps;
    QuotientBelow(l.minPps, 1, pps);
  }

  lemma RepeatedSource(i: nat, c: nat, repeat: nat)
    requires c < repeat
    ensures Over(i * repeat + c, repeat) == i
  {
    hide Over;
    QuotientBelow(i * repeat + c, i + 1, repeat);
    assert (i + 1) * repeat == i * repeat + repeat;
    if i > 0 { QuotientBelow(i * repeat + c, i, repeat); }
  }

  // ----- packing -----

  function PackPoint(p: PointExt): (s: seq<Byte>)
    ensures |s| == 7
  {
    var x, y := p.x / 16, p.y / 16;
    [x / 16, x % 16 * 16 + y / 256, y % 256, p.r / 256, p.g / 256, p.b / 256, p.i / 256]
  }

  function PackedPoints(points: seq<PointExt>, plan: Plan, m: nat): (s: seq<Byte>)
    requires plan.repeat >= 1 && forall k: nat :: k < m ==> SourceIndex(plan, k) < |points|
    ensures |s| == 7 * m
  {
    if m == 0 then []
    else PackedPoints(points, plan, m - 1) + PackPoint(points[SourceIndex(plan, m - 1)])
  }

  function Trailer(plan: Plan, flags: nat): (s: seq<Byte>)
    requires plan.count < 0x1_0000 && plan.rate < 0x1_0000
    ensures |s| == 5
  {
    [plan.rate % 256, plan.rate / 256, plan.count % 256, plan.count / 256, flags % 256]
  }

  function LittleWord(s: seq<int>, at: nat): int
    requires at + 1 < |s|
  {
    s[at] + 256 * s[at + 1]
  }

  /** A packed frame as a device reads it back: 12-bit coordinates and 8-bit channels. */
  datatype Sample = Sample(x: nat, y: nat, r: nat, g: nat, b: nat, i: nat)

  function SampleAt(frame: seq<Byte>, k: nat): Sample
    requires 7 * k + 7 <= |frame|
  {
    var s: seq<int> := frame[7 * k..7 * k + 7];
    Sample(s[0] * 16 + s[1] / 16, s[1] % 16 * 256 + s[2], s[3], s[4], s[5], s[6])
  }

  /** The most significant bits of a point. */
  function Truncated(p: PointExt): Sample
  {
    Sample(p.x / 16, p.y / 16, p.r / 256, p.g / 256, p.b / 256, p.i / 256)
  }

  lemma PointUnpacks(p: PointExt)
    ensures SampleAt(PackPoint(p), 0) == Truncated(p)
  {
    var x, y := p.x / 16, p.y / 16;
    assert x % 16 * 16 + y / 256 < 256;
    assert (x % 16 * 16 + y / 256) / 16 == x % 16;
    assert (x % 16 * 16 + y / 256) % 16 == y / 256;
    assert PackPoint(p)[0..7] == PackPoint(p);
  }

  lemma {:induction false} PackedPointsUnpack(points: seq<PointExt>, plan: Plan, m: nat, k: nat)
    requires plan.repeat >= 1 && forall k: nat :: k < m ==> SourceIndex(plan, k) < |points|
    requires k < m
    ensures SampleAt(PackedPoints(points, plan, m), k) == Truncated(points[SourceIndex(plan, k)])
  {
    hide SourceIndex, PackPoint;
    var before := PackedPoints(points, plan, m - 1);
    var last := PackPoint(points[SourceIndex(plan, m - 1)]);
    if k == m - 1 {
      PointUnpacks(points[SourceIndex(plan, k)]);
      assert (before + last)[7 * k..7 * k + 7] == last[0..7];
    } else {
      PackedPointsUnpack(points, plan, m - 1, k);
      assert (before + last)[7 * k..7 * k + 7] == before[7 * k..7 * k + 7];
    }
  }

  /** The whole transfer for an accepted frame. */
  function Transfer(points: seq<PointExt>, plan: Plan, flags: nat): seq<Byte>
    requires plan.repeat >= 1 && plan.count < 0x1_0000 && plan.rate < 0x1_0000
    requires forall k: nat :: k < plan.count ==> SourceIndex(plan, k) < |points|
  {
    PackedPoints(points, plan, plan.count) + Trailer(plan, flags)
  }

  /** A device that reads the transfer back finds seven bytes a point and five more, each point the
      truncation of its source point, then the rate, the count and the low byte of the flags. */
  lemma TransferDecodes(points: seq<PointExt>, plan: Plan, flags: nat)
    requires plan.repeat >= 1 && plan.count < 0x1_0000 && plan.rate < 0x1_0000
    requires forall k: nat :: k < plan.count ==> SourceIndex(plan, k) < |points|
    ensures var frame := Transfer(points, plan, flags);
            var end := 7 * plan.count;
            && |frame| == end + 5
            && (forall k: nat :: k < plan.count ==>
                  SampleAt(frame, k) == Truncated(points[SourceIndex(plan, k)]))
            && LittleWord(frame, end) == plan.rate
            && LittleWord(frame, end + 2) == plan.count
            && frame[end + 4] == flags % 256
  {
    hide SourceIndex, PackedPoints, Truncated, SampleAt, Trailer;
    var body := PackedPoints(points, plan, plan.count);
    var frame := Transfer(points, plan, flags);
    TrailerReads(plan, flags);
    assert forall j :: 0 <= j < 5 ==> frame[7 * plan.count + j] == Trailer(plan, flags)[j];
    forall k: nat | k < plan.count ensures SampleAt(frame, k) == Truncated(points[SourceIndex(plan, k)]) {
      PackedPointsUnpack(points, plan, plan.count, k);
      SampleOfPrefix(body, Trailer(plan, flags), k);
    }
  }

  lemma SampleOfPrefix(body: seq<Byte>, rest: seq<Byte>, k: nat)
    requires 7 * k + 7 <= |body|
    ensures SampleAt(body + rest, k) == SampleAt(body, k)
  {
    assert (body + rest)[7 * k..7 * k + 7] == body[7 * k..7 * k + 7];
  }

  lemma TrailerReads(plan: Plan, flags: nat)
    requires plan.count < 0x1_0000 && plan.rate < 0x1_0000
    ensures var t := Trailer(plan, flags);
            LittleWord(t, 0) == plan.rate && LittleWord(t, 2) == plan.count && t[4] == flags % 256
  {
  }

  // ----- the connection -----

  class Connection {
    var closed: bool
    var bulkTransferBuffer: array<Byte>

    constructor ()
      ensures !closed && fresh(bulkTransferBuffer)
    {
      closed := false;
      bulkTransferBuffer := new Byte[0];
    }

    /** Adapts and packs one frame. A refusal leaves the buffer alone; an accepted frame fills it
        with the transfer of its plan. The product of count and repetition factor is formed in 32
        bits and must fit them. */
    method WriteFrame(l: Limits, pps: nat, flags: nat, points: seq<PointExt>) returns (verdict: Verdict)
      requires Plausible(l) && |points| * (l.minPps + 1) < 0x1_0000_0000
      modifies this`bulkTransferBuffer
      ensures closed ==> verdict == Refused(DeviceClosed)
      ensures !closed ==> verdict == Adapt(l, pps, |points|)
      ensures verdict.Refused? ==> bulkTransferBuffer == old(bulkTransferBuffer)
      ensures verdict.Accepted? ==>
                var plan := verdict.plan;
                && fresh(bulkTransferBuffer)
                && plan.repeat >= 1 && plan.count < 0x1_0000 && plan.rate < 0x1_0000
                && (forall k: nat :: k < plan.count ==> SourceIndex(plan, k) < |points|)
                && bulkTransferBuffer[..] == Transfer(points, plan, flags)
    {
      hide Adapt, SourceIndex, Transfer;
      if closed { return Refused(DeviceClosed); }
      verdict := Choose(l, pps, |points|);
      if verdict.Refused? { return; }
      var plan := verdict.plan;
      AcceptedWithinLimits(l, pps, |points|);
      forall k: nat | k < plan.count
        ensures SourceIndex(plan, k) < |points| && k * plan.stride < |points| * plan.repeat
      {
        SourceInRange(l, pps, |points|, k);
      }
      var repeated := Repeated(points, plan.repeat);
      bulkTransferBuffer := Packed(points, repeated, plan, flags);
    }
  }

  /** The arithmetic of the call: count and rate are adjusted step by step. */
  method Choose(l: Limits, pps: nat, n: nat) returns (verdict: Verdict)
    requires Plausible(l)
    ensures verdict == Adapt(l, pps, n)
  {
    hide Over, Sampled;
    if n == 0 { return Refused(NullPoints); }
    var rate, count, repeat := pps, n, 1;
    if rate < l.minPps {
      if rate == 0 { return Refused(PpsTooLow); }
      repeat := Over(l.minPps, rate) + 1;
      if count * repeat > l.maxPoints { return Refused(PpsTooLow); }
      count := count * repeat;
      rate := rate * repeat;
    }
    verdict := Subsample(l, repeat, rate, count);
  }

  method Subsample(l: Limits, repeat: nat, rate: nat, count: nat) returns (verdict: Verdict)
    requires Plausible(l)
    ensures verdict == Sampled(l, repeat, rate, count)
  {
    hide Over, Rescaled;
    var pps, n, samplingFactor := rate, count, 1;
    if pps > l.maxPps || n > l.maxPoints {
      samplingFactor := Over(pps, l.maxPps) + 1;
      if Over(n, l.maxPoints) + 1 > samplingFactor { samplingFactor := Over(n, l.maxPoints) + 1; }
      StrideIsLeast(l, pps, n, samplingFactor);
      pps := Over(pps, samplingFactor);
      n := Over(n, samplingFactor);
      if pps < l.minPps { return Refused(TooManyPoints); }
    } else {
      OverOne(rate);
      OverOne(count);
    }
    verdict := Accepted(Plan(repeat, samplingFactor, n, pps));
    if n >= 1 && AwkwardLength(n) {
      verdict := Accepted(Plan(repeat, samplingFactor, n - 1, Rescaled(pps, n)));
    }
  }

  /** Each point `repeat` times in a row. */
  method Repeated(points: seq<PointExt>, repeat: nat) returns (a: array<PointExt>)
    requires repeat >= 1
    ensures fresh(a) && a.Length == |points| * repeat
    ensures forall k: nat :: k < a.Length ==> Over(k, repeat) < |points| && a[k] == points[Over(k, repeat)]
  {
    hide Over;
    a := new PointExt[|points| * repeat](_ => PointExt(0, 0, 0, 0, 0, 0));
    var writeIndex := 0;
    for i := 0 to |points|
      invariant writeIndex == i * repeat
      invariant forall k: nat :: k < writeIndex ==> Over(k, repeat) < |points| && a[k] == points[Over(k, repeat)]
    {
      assert (i + 1) * repeat <= |points| * repeat;
      assert (i + 1) * repeat == i * repeat + repeat;
      for j := 0 to repeat
        invariant writeIndex == i * repeat + j
        invariant forall k: nat :: k < writeIndex ==> Over(k, repeat) < |points| && a[k] == points[Over(k, repeat)]
      {
        RepeatedSource(i, j, repeat);
        a[writeIndex] := points[i];
        writeIndex := writeIndex + 1;
      }
    }
  }

  /** The transfer buffer, filled through an index. */
  method Packed(ghost points: seq<PointExt>, repeated: array<PointExt>, plan: Plan, flags: nat)
    returns (buffer: array<Byte>)
    requires plan.repeat >= 1 && plan.stride >= 1 && plan.count < 0x1_0000 && plan.rate < 0x1_0000
    requires forall k: nat :: k < plan.count ==>
               SourceIndex(plan, k) < |points| && k * plan.stride < repeated.Length
    requires forall k: nat :: k < repeated.Length ==>
               Over(k, plan.repeat) < |points| && repeated[k] == points[Over(k, plan.repeat)]
    ensures fresh(buffer)
    ensures buffer[..] == Transfer(points, plan, flags)
  {
    hide PackPoint;
    buffer := new Byte[plan.count * 7 + 5](_ => 0);
    var bufPos, i := 0, 0;
    var loopLength := plan.count * plan.stride;
    ghost var m := 0;
    while i < loopLength
      invariant m <= plan.count && i == m * plan.stride && bufPos == 7 * m
      invariant buffer[..bufPos] == PackedPoints(points, plan, m)
      decreases plan.count - m
    {
      QuotientBelow(i, plan.count, plan.stride);
      RepeatedSource(m, 0, plan.stride);
      assert (m + 1) * plan.stride == m * plan.stride + plan.stride;
      PutPoint(buffer, bufPos, repeated[i]);
      assert buffer[..bufPos + 7] == buffer[..bufPos] + buffer[bufPos..bufPos + 7];
      bufPos := bufPos + 7;
      i := i + plan.stride;
      m := m + 1;
    }
    assert m == plan.count by {
      RepeatedSource(m, 0, plan.stride);
      RepeatedSource(plan.count, 0, plan.stride);
      QuotientMonotone(loopLength, i, plan.stride);
    }
    PutTrailer(buffer, bufPos, plan, flags);
    assert buffer[..] == buffer[..bufPos] + buffer[bufPos..bufPos + 5];
  }

  method PutPoint(buffer: array<Byte>, at: nat, p: PointExt)
    requires at + 7 <= buffer.Length
    modifies buffer
    ensures buffer[at..at + 7] == PackPoint(p)
    ensures buffer[..at] == old(buffer[..at])
  {
    var x, y := p.x / 16, p.y / 16;
    buffer[at] := x / 16;
    buffer[at + 1] := x % 16 * 16 + y / 256;
    buffer[at + 2] := y % 256;
    buffer[at + 3] := p.r / 256;
    buffer[at + 4] := p.g / 256;
    buffer[at + 5] := p.b / 256;
    buffer[at + 6] := p.i / 256;
    assert buffer[at..at + 7] == PackPoint(p);
  }

  method PutTrailer(buffer: array<Byte>, at: nat, plan: Plan, flags: nat)
    requires at + 5 <= buffer.Length
    requires plan.count < 0x1_0000 && plan.rate < 0x1_0000
    modifies buffer
    ensures buffer[at..at + 5] == Trailer(plan, flags)
    ensures buffer[..at] == old(buffer[..at])
  {
    buffer[at] := plan.rate % 256;
    buffer[at + 1] := plan.rate / 256;
    buffer[at + 2] := plan.count % 256;
    buffer[at + 3] := plan.count / 256;
    buffer[at + 4] := flags % 256;
  }
}
