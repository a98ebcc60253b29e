/** The estimate of what a frame transport still holds: `noteFrameTransportSubmissionBounded` and
`projectedNextWriteRenderTime` in src/core/LaserController.cpp.

A submission is noted with the time at which it is expected to start playing. The next start is
projected from it, and the backlog carried over at that start must not be counted twice. */
module FrameTransport {
  import opened Arithmetic
  import opened BufferEstimator

  datatype Estimate = Estimate(points: nat, time: Time, rate: nat, valid: bool)

  const NOTHING := Estimate(0, 0, 0, false)

  /** Whole microseconds in which the points play. */
  function PlayoutMicros(points: nat, rate: nat): nat
    requires rate > 0
  {
    points * 1_000_000 / rate
  }

  /** When the noted backlog has played out. */
  function DrainTime(e: Estimate): Time
    requires e.rate > 0
  {
    e.time + PlayoutMicros(e.points, e.rate) * 1000
  }

  function Projected(e: Estimate, now: Time, lead: Time): Time
  {
    if !e.valid || e.rate == 0 then now + lead else Max(DrainTime(e), now + lead)
  }

  /** What of the noted backlog is taken to be left at a later time. */
  function Remaining(e: Estimate, at: Time): nat
  {
    var clamped := Min(e.points, INT_MAX);
    var carry := EstimateFromSnapshot(clamped, e.time, e.rate, at);
    if carry.projected then (if carry.fullness > 0 then carry.fullness else 0) else clamped
  }

  /** The start of a submission: as requested, the present by default, never in the past. */
  function StartTime(requested: Time, now: Time): Time
  {
    Max(if requested == 0 then now else requested, now)
  }

  function Noted(e: Estimate, count: nat, requested: Time, rate: nat, maxCarry: nat, now: Time,
                 currentRate: nat): Estimate
  {
    if count == 0 then e
    else
      var start := StartTime(requested, now);
      var carried := if e.valid then Min(Remaining(e, start), maxCarry) else 0;
      Estimate(count + carried, start, if rate == 0 then currentRate else rate, true)
  }

  class Transport {
    var estimate: Estimate
    var submittedFrames: nat
    var submittedPoints: nat

    constructor ()
      ensures estimate == NOTHING && submittedFrames == 0 && submittedPoints == 0
    {
      estimate, submittedFrames, submittedPoints := NOTHING, 0, 0;
    }

    method NoteSubmission(count: nat, requested: Time, rate: nat, maxCarry: nat, now: Time,
                          currentRate: nat)
      modifies this
      ensures estimate == Noted(old(estimate), count, requested, rate, maxCarry, now, currentRate)
      ensures submittedPoints == old(submittedPoints) + count
      ensures submittedFrames == old(submittedFrames) + if count > 0 then 1 else 0
    {
      if count == 0 {
        return;
      }
      submittedFrames, submittedPoints := submittedFrames + 1, submittedPoints + count;
      var noteRate := rate;
      if noteRate == 0 {
        noteRate := currentRate;
      }
      var requestedStart := if requested == 0 then now else requested;
      var total := count;
      var snapshotTime := Max(requestedStart, now);
      if estimate.valid {
        var carry := EstimateFromSnapshot(Min(estimate.points, INT_MAX), estimate.time, estimate.rate, snapshotTime);
        var remaining := if carry.projected then (if carry.fullness > 0 then carry.fullness else 0)
                         else Min(estimate.points, INT_MAX);
        if remaining > 0 {
          total := total + Min(remaining, maxCarry);
        }
      }
      estimate := Estimate(total, snapshotTime, noteRate, true);
    }

    method ProjectedNextWriteRenderTime(now: Time, lead: Time) returns (time: Time)
      ensures time == Projected(estimate, now, lead)
    {
      var floorTime := now + lead;
      if !estimate.valid || estimate.rate == 0 {
        return floorTime;
      }
      var playout := estimate.points * 1_000_000 / estimate.rate;
      var drainComplete := estimate.time + playout * 1000;
      return Max(drainComplete, floorTime);
    }

    method ClearEstimate()
      modifies this`estimate
      ensures estimate == NOTHING
    {
      estimate := NOTHING;
    }
  }

  // ----- nothing is counted twice -----

  /** An estimate as a submission of at least one point leaves it. */
  predicate Live(e: Estimate) { e.valid && e.points >= 1 && e.time != 0 && 1 <= e.rate <= 500_000 }

  /** By how much the play-out up to `at` exceeds the noted backlog, in whole points. */
  function Overplayed(e: Estimate, at: Time): int
    requires at >= e.time
  {
    -Round(Min(e.points, INT_MAX) as real - PlayedPoints(e.rate, (at - e.time) / 1000))
  }

  lemma QuotientAlmostDivides(x: nat, d: nat)
    requires d > 0
    ensures x / d * d > x - d
  {
    assert x == d * (x / d) + x % d;
  }

  lemma MoreMicrosPlayMore(rate: nat, a: nat, b: nat)
    requires a <= b
    ensures rate * a <= rate * b
  {
  }

  /** By the time the backlog has drained, play-out has caught up with it to the nearest point. */
  lemma DrainedIsOverplayed(e: Estimate, at: Time)
    requires Live(e) && at >= DrainTime(e)
    ensures (at - e.time) / 1000 >= PlayoutMicros(e.points, e.rate) >= 2
    ensures Overplayed(e, at) >= 0
  {
    hide PlayedPoints;
    var micros, playout := (at - e.time) / 1000, PlayoutMicros(e.points, e.rate);
    PlayoutIsAlmostExact(e.points, e.rate);
    assert micros >= playout;
    MoreMicrosPlayMore(e.rate, playout, micros);
    EnoughMicrosPlayAll(e.points, e.rate, micros);
  }

  lemma PlayoutIsAlmostExact(points: nat, rate: nat)
    requires points >= 1 && 1 <= rate <= 500_000
    ensures PlayoutMicros(points, rate) >= 2
    ensures rate * PlayoutMicros(points, rate) > points * 1_000_000 - 500_000
  {
    var playout := PlayoutMicros(points, rate);
    QuotientAlmostDivides(points * 1_000_000, rate);
    assert playout * rate == rate * playout;
    assert playout < 2 ==> playout * rate <= rate;
  }

  lemma EnoughMicrosPlayAll(points: nat, rate: nat, micros: nat)
    requires rate * micros > points * 1_000_000 - 500_000
    ensures PlayedPoints(rate, micros) > points as real - 0.5
  {
    var total := rate * micros;
    assert total as real > (points * 1_000_000 - 500_000) as real;
  }

  /** Exactly when nothing is carried over at or after the drain: the excess of play-out, as a 32-bit
      number, must not wrap into the positive. */
  lemma CarriesNothingExactly(e: Estimate, at: Time)
    requires Live(e) && at >= DrainTime(e)
    ensures Remaining(e, at) == 0 <==> Overplayed(e, at) % 0x1_0000_0000 <= 0x8000_0000
  {
    hide Round;
    DrainedIsOverplayed(e, at);
    WrapOfNegative(Overplayed(e, at));
  }

  lemma WrapOfNegative(excess: int)
    requires excess >= 0
    ensures ToInt32(-excess) > 0 <==> excess % 0x1_0000_0000 > 0x8000_0000
  {
    var m := excess % 0x1_0000_0000;
    var q := excess / 0x1_0000_0000;
    assert excess == q * 0x1_0000_0000 + m;
    assert (ToInt32(-excess) + m) % 0x1_0000_0000 == 0 by {
      var d := ToInt32(-excess) + excess;
      assert d % 0x1_0000_0000 == 0;
      assert ToInt32(-excess) + m == d - q * 0x1_0000_0000;
      MultiplesCancel(d, q);
    }
  }

  lemma MultiplesCancel(d: int, q: int)
    requires d % 0x1_0000_0000 == 0
    ensures (d - q * 0x1_0000_0000) % 0x1_0000_0000 == 0
  {
    var k := d / 0x1_0000_0000;
    assert d == k * 0x1_0000_0000;
    assert d - q * 0x1_0000_0000 == (k - q) * 0x1_0000_0000;
  }

  /** The condition a caller can check beforehand: no more than 2^31 points could have played since the
      estimate was noted. */
  predicate Fresh(e: Estimate, at: Time)
  {
    at >= e.time && e.rate * ((at - e.time) / 1000) <= 0x8000_0000 * 1_000_000
  }

  lemma FreshCarriesNothing(e: Estimate, at: Time)
    requires Live(e) && at >= DrainTime(e) && Fresh(e, at)
    ensures Remaining(e, at) == 0
  {
    hide Remaining, EstimateFromSnapshot, PlayoutMicros;
    CarriesNothingExactly(e, at);
    DrainedIsOverplayed(e, at);
    var played := PlayedPoints(e.rate, (at - e.time) / 1000);
    assert played <= 0x8000_0000 as real;
    assert Overplayed(e, at) <= 0x8000_0000;
  }

  /** One point noted at 30000 points per second, and a day without submissions: the carried backlog
      reappears as 1702967297 points. */
  lemma StaleEstimateWraps(t: Time)
    requires t > 0
    ensures var e := Estimate(1, t, 30000, true);
            var at := t + 86_400_000_000_000;
            && Live(e) && at >= DrainTime(e)
            && Remaining(e, at) == 1_702_967_297
  {
    var e := Estimate(1, t, 30000, true);
    var at := t + 86_400_000_000_000;
    assert (at - e.time) / 1000 == 86_400_000_000;
    assert PlayedPoints(30000, 86_400_000_000) == 2_592_000_000.0;
    assert Round(1.0 - 2_592_000_000.0) == -2_591_999_999;
    assert ToInt32(-2_591_999_999) == 1_702_967_297;
  }

  // ----- projection and carry-over in numbers -----

  /** The next start is never before the present plus lead. If it is later, it is when the backlog has
      played out at its rate: not before, up to the last microsecond, and not after. */
  lemma ProjectionInNumbers(e: Estimate, now: Time, lead: Time)
    requires e.valid && e.rate > 0
    ensures var start := Projected(e, now, lead);
            && start >= now + lead
            && (start - e.time + 1000) * e.rate > e.points * 1_000_000_000
            && (start > now + lead ==> (start - e.time) * e.rate <= e.points * 1_000_000_000)
  {
    var x := e.points * 1_000_000;
    var micros := PlayoutMicros(e.points, e.rate);
    assert x == e.rate * micros + x % e.rate;
    assert (micros * 1000) * e.rate == 1000 * (e.rate * micros);
    var start := Projected(e, now, lead);
    Grows(start - e.time + 1000, micros * 1000 + 1000, e.rate);
    assert (micros * 1000 + 1000) * e.rate == (micros * 1000) * e.rate + 1000 * e.rate;
  }

  lemma Grows(a: int, b: int, n: nat)
    requires a >= b
    ensures a * n >= b * n
  {
  }

  /** A submission that starts before the backlog has played out carries over what is left of it, to the
      nearest point, but no more than it may. */
  lemma CarryInNumbers(e: Estimate, count: nat, requested: Time, rate: nat, maxCarry: nat, now: Time, current: nat)
    requires Live(e) && e.points <= 0x7FFF_FFFF && count > 0
    ensures var start := Max(if requested == 0 then now else requested, now);
            var played := if start > e.time then e.rate * ((start - e.time) / 1000) else 0;
            var left := e.points - played / 1_000_000;
            var noted := Noted(e, count, requested, rate, maxCarry, now, current);
            && noted.time == start && noted.valid && noted.rate == (if rate == 0 then current else rate)
            && (left > 0 ==>
                  noted.points == count + Min(if played % 1_000_000 > 500_000 then left - 1 else left, maxCarry))
  {
    hide Remaining;
    RemainingInNumbers(e, StartTime(requested, now));
  }

  lemma RemainingInNumbers(e: Estimate, start: Time)
    requires Live(e) && e.points <= 0x7FFF_FFFF
    ensures var played := if start > e.time then e.rate * ((start - e.time) / 1000) else 0;
            var left := e.points - played / 1_000_000;
            left > 0 ==> Remaining(e, start) == if played % 1_000_000 > 500_000 then left - 1 else left
  {
    hide Round;
    if start > e.time {
      ProjectionIsAtMostOneLow(e.points, e.rate, (start - e.time) / 1000);
    }
  }

  // ----- runs of submissions -----

  /** A submission whose start is projected at `askedAt` and noted at `notedAt`. */
  datatype Submission = Submission(count: nat, rate: nat, askedAt: Time, lead: Time, notedAt: Time, maxCarry: nat)

  function Submitted(e: Estimate, s: Submission): Estimate
  {
    Noted(e, s.count, Projected(e, s.askedAt, s.lead), s.rate, s.maxCarry, s.notedAt, s.rate)
  }

  ghost predicate Usual(s: Submission)
  {
    s.count >= 1 && 1 <= s.rate <= 500_000 && s.askedAt > 0 && s.lead >= 0 && s.notedAt > 0
  }

  /** The times at which a run of submissions starts, and what is noted for each. */
  ghost function Estimates(e: Estimate, subs: seq<Submission>): (r: seq<Estimate>)
    ensures |r| == |subs|
    decreases |subs|
  {
    if subs == [] then [] else [Submitted(e, subs[0])] + Estimates(Submitted(e, subs[0]), subs[1..])
  }

  ghost predicate UsualRun(subs: seq<Submission>)
  {
    forall i :: 0 <= i < |subs| ==> Usual(subs[i])
  }

  /** A projected start lies at or after the drain of everything noted before. */
  lemma ProjectedStartsAfterDrain(e: Estimate, s: Submission)
    requires Live(e) && e.time > 0 && Usual(s)
    ensures Submitted(e, s).time >= DrainTime(e)
    ensures Live(Submitted(e, s)) && Submitted(e, s).time > 0
  {
    assert PlayoutMicros(e.points, e.rate) >= 0;
  }

  lemma FirstSubmissionIsLive(s: Submission)
    requires Usual(s)
    ensures Live(Submitted(NOTHING, s)) && Submitted(NOTHING, s).time > 0
    ensures Submitted(NOTHING, s).points == s.count
  {
  }

  /** From a live estimate on, each start waits for the whole backlog noted with the one before. */
  lemma {:induction false} LaterSlotsNeverOverlap(e: Estimate, subs: seq<Submission>, i: nat)
    requires Live(e) && e.time > 0 && UsualRun(subs) && i < |subs|
    ensures var all := [e] + Estimates(e, subs);
            && Live(all[i]) && all[i].time > 0
            && all[i + 1].time >= DrainTime(all[i])
    decreases i
  {
    var next := Submitted(e, subs[0]);
    assert Usual(subs[0]);
    ProjectedStartsAfterDrain(e, subs[0]);
    if i > 0 {
      LaterSlotsNeverOverlap(next, subs[1..], i - 1);
      assert [e] + Estimates(e, subs) == [e] + ([next] + Estimates(next, subs[1..]));
    }
  }

  /** From a live estimate on, while none grows stale, every submission is noted with exactly its own
      points. */
  lemma {:induction false} LaterSubmissionsCountOnce(e: Estimate, subs: seq<Submission>, i: nat)
    requires Live(e) && e.time > 0 && UsualRun(subs) && i < |subs|
    requires forall k :: 0 <= k < |subs| ==>
               Fresh(([e] + Estimates(e, subs))[k], Estimates(e, subs)[k].time)
    ensures Estimates(e, subs)[i].points == subs[i].count
    decreases i
  {
    var next := Submitted(e, subs[0]);
    var all := Estimates(e, subs);
    assert Usual(subs[0]);
    ProjectedStartsAfterDrain(e, subs[0]);
    if i == 0 {
      assert Fresh(([e] + all)[0], all[0].time);
      FreshCarriesNothing(e, next.time);
    } else {
      var rest := Estimates(next, subs[1..]);
      forall k | 0 <= k < |subs| - 1
        ensures Fresh(([next] + rest)[k], rest[k].time)
      {
        assert Fresh(([e] + all)[k + 1], all[k + 1].time);
      }
      LaterSubmissionsCountOnce(next, subs[1..], i - 1);
    }
  }

  /** Slots never overlap, over every run from an empty transport: each start waits for the whole
      backlog noted with the submission before. */
  lemma SlotsNeverOverlap(subs: seq<Submission>, i: nat)
    requires UsualRun(subs) && i + 1 < |subs|
    ensures var all := Estimates(NOTHING, subs);
            Live(all[i]) && all[i + 1].time >= DrainTime(all[i])
  {
    var first := Submitted(NOTHING, subs[0]);
    assert Usual(subs[0]);
    FirstSubmissionIsLive(subs[0]);
    assert UsualRun(subs[1..]);
    LaterSlotsNeverOverlap(first, subs[1..], i);
    assert Estimates(NOTHING, subs) == [first] + Estimates(first, subs[1..]);
  }

  /** No submission waits so long for the next that the play-out count could wrap. */
  ghost predicate NeverStale(all: seq<Estimate>)
  {
    forall k :: 0 <= k < |all| - 1 ==> Fresh(all[k], all[k + 1].time)
  }

  /** Over every run from an empty transport in which no estimate grows stale: every submission, the
      first included, is noted with exactly its own points. */
  lemma EverySubmissionCountsOnce(subs: seq<Submission>, i: nat)
    requires UsualRun(subs) && i < |subs| && NeverStale(Estimates(NOTHING, subs))
    ensures Estimates(NOTHING, subs)[i].points == subs[i].count
  {
    var all, first := Estimates(NOTHING, subs), Submitted(NOTHING, subs[0]);
    assert Usual(subs[0]);
    FirstSubmissionIsLive(subs[0]);
    if i > 0 {
      var rest := Estimates(first, subs[1..]);
      assert all == [first] + rest && UsualRun(subs[1..]);
      forall k | 0 <= k < |rest|
        ensures Fresh(([first] + rest)[k], rest[k].time)
      {
        assert Fresh(all[k], all[k + 1].time);
      }
      LaterSubmissionsCountOnce(first, subs[1..], i - 1);
    }
  }
}
