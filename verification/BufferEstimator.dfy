/** Buffer arithmetic: src/core/BufferEstimator.cpp. Clock values are nanoseconds, 0 the default time
point; a converted value is a 32-bit int and wraps as such. */
module BufferEstimator {
  import opened Arithmetic

  datatype BufferEstimate = BufferEstimate(fullness: int, projected: bool)

  /** Rounds to nearest, halves away from zero. */
  function Round(x: real): int
  {
    if x >= 0.0 then (x + 0.5).Floor else -((-x + 0.5).Floor)
  }

  /** The value of a 64-bit integer after conversion to a 32-bit one. */
  function ToInt32(z: int): (w: int)
    ensures -0x8000_0000 <= w <= INT_MAX
    ensures (w - z) % 0x1_0000_0000 == 0
    ensures -0x8000_0000 <= z <= INT_MAX ==> w == z
  {
    (z + 0x8000_0000) % 0x1_0000_0000 - 0x8000_0000
  }

  /** Points that play in so many microseconds. */
  function PlayedPoints(rate: nat, micros: nat): real { (rate * micros) as real / 1_000_000.0 }

  function EstimateFromSnapshot(fullness: int, snapshotTime: Time, rate: nat, now: Time): BufferEstimate
  {
    if rate == 0 || snapshotTime == 0 || now - snapshotTime <= 0 then BufferEstimate(fullness, false)
    else
      var elapsedUs := (now - snapshotTime) / 1000;
      if elapsedUs <= 0 then BufferEstimate(fullness, false)
      else
        var estimated := ToInt32(Round(fullness as real - PlayedPoints(rate, elapsedUs)));
        BufferEstimate(if estimated > 0 then estimated else 0, true)
  }

  function TargetBufferPoints(rate: nat, capacity: int, latencyMillis: int, floor: int, headroom: int): int
  {
    if capacity <= 0 then 0
    else
      var minimumTarget := Clamp(floor, 0, capacity);
      if rate == 0 then minimumTarget
      else
        var latency := if latencyMillis < 0 then 0 else latencyMillis;
        var requested := ToInt32(Round((rate * latency) as real / 1000.0));
        var safety := Clamp(headroom, 0, if capacity > minimumTarget then capacity - minimumTarget else 0);
        var maximumTarget := if minimumTarget > capacity - safety then minimumTarget else capacity - safety;
        Clamp(requested, minimumTarget, maximumTarget)
  }

  /** The target always lies between the floor and what the headroom leaves, each cut to the capacity;
      where floor and headroom collide the floor wins. A negative floor or headroom counts as 0, and
      without capacity there is no target. */
  lemma TargetWithinCapacity(rate: nat, capacity: int, latencyMillis: int, floor: int, headroom: int)
    ensures var t := TargetBufferPoints(rate, capacity, latencyMillis, floor, headroom);
            var least, spare := Max(0, floor), Max(0, headroom);
            if capacity <= 0 then t == 0
            else
              && Min(least, capacity) <= t <= capacity
              && (least < capacity && spare > 0 && rate > 0 ==> t < capacity)
              && (t > least ==> t <= capacity - spare)
              && (least >= capacity ==> t == capacity)
  {
    hide Round, ToInt32;
  }

  /** What a projection leaves of a backlog, to the nearest point. */
  lemma ProjectionIsAtMostOneLow(fullness: nat, rate: nat, us: nat)
    requires fullness <= INT_MAX
    ensures var left := fullness - rate * us / 1_000_000;
            var estimated := ToInt32(Round(fullness as real - PlayedPoints(rate, us)));
            left > 0 ==> estimated == if rate * us % 1_000_000 > 500_000 then left - 1 else left
  {
    RoundedRest(fullness, rate * us);
    hide Round;
  }

  lemma RoundedRest(fullness: nat, x: nat)
    ensures var left := fullness - x / 1_000_000;
            left > 0 ==>
              Round(fullness as real - x as real / 1_000_000.0)
                == if x % 1_000_000 > 500_000 then left - 1 else left
  {
    var n, r := x / 1_000_000, x % 1_000_000;
    assert x as real == n as real * 1_000_000.0 + r as real;
    assert x as real / 1_000_000.0 == n as real + r as real / 1_000_000.0;
  }
}
