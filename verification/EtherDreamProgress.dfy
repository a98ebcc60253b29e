/** Start-up and recovery of the Ether Dream loop against a device that obeys: every turn brings
playback closer, exactly when the device's buffer is larger than the minimum the controller insists on;
and no data packet exceeds the free space. */
module EtherDreamProgress {
  import opened Arithmetic
  import opened BufferEstimator
  import opened EtherDream

  /** A source that gives between the least and the most it is asked for. */
  ghost predicate Willing(supply: (nat, nat) -> nat)
  {
    forall least: nat, most: nat :: least <= most ==> least <= supply(least, most) <= most
  }

  /** The controller's view agrees with the device, the light engine is usable or stopped, every rate is
      plausible, and the pending action is one that suits the status or restarts. */
  ghost predicate Coherent(cfg: Config, c: Control, d: Device)
  {
    && c.status == d.Report()
    && d.capacity == cfg.capacity
    && d.rate <= cfg.maxRate && cfg.rate <= cfg.maxRate
    && (d.light == Ready || d.light == Estop)
    && match c.action
       case Clear => true
       case Stop => d.light == Ready
       case Prepare => d.light == Ready && d.playback == Idle
       case Begin => d.light == Ready && d.playback == Prepared && 0 < Target(cfg) <= d.fullness
       case NoAction =>
         d.light == Ready
         && (d.playback == Playing
             || (d.playback == Prepared && (d.fullness < Target(cfg) || Target(cfg) <= 0)))
  }

  ghost predicate Running(c: Control)
  {
    c.action == NoAction && c.status.light == Ready && c.status.playback == Playing
  }

  /** Turns left at most: one begin, one packet per missing point, and one command per stage. */
  ghost function Rank(cfg: Config, c: Control): int
  {
    if Running(c) then 0
    else
      match c.action
      case Begin => 1
      case NoAction => 1 + Max(0, Target(cfg) - c.status.fullness)
      case Prepare => 2 + Max(0, Target(cfg))
      case Stop => 3 + Max(0, Target(cfg))
      case Clear => 4 + Max(0, Target(cfg))
  }

  lemma TargetFacts(cfg: Config)
    ensures cfg.capacity > MIN_BUFFER_POINTS ==> MIN_BUFFER_POINTS <= Target(cfg) < cfg.capacity
    ensures cfg.capacity <= MIN_BUFFER_POINTS ==> Target(cfg) == cfg.capacity
  {
    if cfg.capacity > 0 {
      TargetWithinCapacity(cfg.rate, cfg.capacity, cfg.latencyMillis, MIN_BUFFER_POINTS, SAFETY_HEADROOM_POINTS);
    }
  }

  /** What the controller makes of a plausible status of a usable device. */
  lemma UpdatedOnPlausible(cfg: Config, c: Control, status: Status)
    requires status.light == Ready && status.rate <= cfg.maxRate
    ensures Updated(cfg, c, status).action == ActionFor(cfg, status)
    ensures Updated(cfg, c, status).status == status
    ensures Updated(cfg, c, status).sentRate == c.sentRate
  {
  }

  // ----- every turn makes progress -----

  lemma FillTurn(cfg: Config, c: Control, d: Device, threshold: nat, supply: (nat, nat) -> nat)
    requires Coherent(cfg, c, d) && c.action == NoAction && !Running(c)
    requires cfg.capacity > MIN_BUFFER_POINTS && Willing(supply)
    ensures var t := Turn(cfg, c, d, d.fullness, threshold, supply);
            Coherent(cfg, t.0, t.1) && Rank(cfg, t.0) < Rank(cfg, c)
  {
    hide Target;
    TargetFacts(cfg);
    var request := FillRequest(cfg, d.fullness);
    var points := supply(request.0, request.1);
    assert request.0 <= points <= request.1;
    assert request.0 > 0 && points <= UsableFreeSpace(cfg, d.fullness);
    var (d', reply) := Obey(d, DataCommand(points));
    assert reply == Ack && d'.fullness == d.fullness + points;
    UpdatedOnPlausible(cfg, c, d'.Report());
  }

  lemma CommandTurn(cfg: Config, c: Control, d: Device, threshold: nat, supply: (nat, nat) -> nat)
    requires Coherent(cfg, c, d) && c.action != NoAction && cfg.capacity > MIN_BUFFER_POINTS
    ensures var t := Turn(cfg, c, d, d.fullness, threshold, supply);
            Coherent(cfg, t.0, t.1) && Rank(cfg, t.0) < Rank(cfg, c)
  {
    hide Target;
    TargetFacts(cfg);
    var command := match c.action
      case Stop => StopCommand
      case Clear => ClearCommand
      case Prepare => PrepareCommand
      case Begin => BeginCommand(cfg.rate)
      case NoAction => PingCommand;
    var (d', reply) := Obey(d, command);
    assert reply == Ack;
    UpdatedOnPlausible(cfg, c, d'.Report());
  }

  /** From any coherent state that is not yet running, one turn strictly decreases the rank. */
  lemma TurnDecreasesRank(cfg: Config, c: Control, d: Device, threshold: nat, supply: (nat, nat) -> nat)
    requires Coherent(cfg, c, d) && !Running(c) && cfg.capacity > MIN_BUFFER_POINTS && Willing(supply)
    ensures var t := Turn(cfg, c, d, d.fullness, threshold, supply);
            Coherent(cfg, t.0, t.1) && 0 <= Rank(cfg, t.0) < Rank(cfg, c)
  {
    if c.action == NoAction {
      FillTurn(cfg, c, d, threshold, supply);
    } else {
      CommandTurn(cfg, c, d, threshold, supply);
    }
  }

  // ----- where coherent states come from -----

  /** The handshake on a new connection leaves a coherent state, whatever the device was doing. */
  lemma FreshConnectionIsCoherent(cfg: Config, c: Control, d: Device)
    requires d.capacity == cfg.capacity && d.rate <= cfg.maxRate && cfg.rate <= cfg.maxRate
    requires d.light == Ready || d.light == Estop
    ensures Coherent(cfg, FreshlyConnected(Updated(cfg, c, d.Report()), d.Report()), d)
  {
  }

  /** So does every refusal of a command by a usable device: recovery restarts from wherever the
      device says it is. */
  lemma RefusalLeavesCoherent(cfg: Config, c: Control, d: Device, command: Command, reply: Reply)
    requires d.capacity == cfg.capacity && d.rate <= cfg.maxRate && cfg.rate <= cfg.maxRate
    requires d.light == Ready || d.light == Estop
    requires reply == StopCondition || reply == Invalid || reply == Full
    ensures var r := AfterSend(cfg, c, command, Response(reply, true, d.Report()));
            && r.1 == RecoverInPlace && Coherent(cfg, r.0, d)
            && (command.DataCommand? && reply != StopCondition ==> r.0.action == Clear)
  {
  }

  // ----- runs -----

  /** The state after k turns; the source may answer differently every turn. */
  ghost function AfterTurns(cfg: Config, c: Control, d: Device, threshold: nat,
                            supplies: nat -> (nat, nat) -> nat, k: nat): (Control, Device)
  {
    if k == 0 then (c, d)
    else
      var (c1, d1) := AfterTurns(cfg, c, d, threshold, supplies, k - 1);
      Turn(cfg, c1, d1, d1.fullness, threshold, supplies(k - 1))
  }

  ghost predicate AllWilling(supplies: nat -> (nat, nat) -> nat)
  {
    forall k: nat :: Willing(supplies(k))
  }

  lemma {:induction false} RunDecreasesRank(cfg: Config, c: Control, d: Device, threshold: nat,
                                            supplies: nat -> (nat, nat) -> nat, k: nat)
    requires Coherent(cfg, c, d) && cfg.capacity > MIN_BUFFER_POINTS && AllWilling(supplies)
    requires forall j: nat :: j < k ==> !Running(AfterTurns(cfg, c, d, threshold, supplies, j).0)
    ensures var s := AfterTurns(cfg, c, d, threshold, supplies, k);
            Coherent(cfg, s.0, s.1) && 0 <= Rank(cfg, s.0) <= Rank(cfg, c) - k
    decreases k
  {
    hide Coherent, Rank, Running, Turn;
    if k == 0 {
      RankIsNotNegative(cfg, c);
    } else {
      RunDecreasesRank(cfg, c, d, threshold, supplies, k - 1);
      var s := AfterTurns(cfg, c, d, threshold, supplies, k - 1);
      assert Willing(supplies(k - 1));
      TurnDecreasesRank(cfg, s.0, s.1, threshold, supplies(k - 1));
    }
  }

  lemma RankIsNotNegative(cfg: Config, c: Control)
    ensures Rank(cfg, c) >= 0
  {
  }

  /** Playback starts within as many turns as the rank says. */
  lemma PlaybackStarts(cfg: Config, c: Control, d: Device, threshold: nat, supplies: nat -> (nat, nat) -> nat)
    requires Coherent(cfg, c, d) && cfg.capacity > MIN_BUFFER_POINTS && AllWilling(supplies)
    ensures exists k: nat :: k <= Rank(cfg, c) && Running(AfterTurns(cfg, c, d, threshold, supplies, k).0)
  {
    hide Rank, Running, Coherent, AfterTurns;
    RankIsNotNegative(cfg, c);
    if forall k: nat :: k <= Rank(cfg, c) ==> !Running(AfterTurns(cfg, c, d, threshold, supplies, k).0) {
      RunDecreasesRank(cfg, c, d, threshold, supplies, Rank(cfg, c) + 1);
      assert false;
    }
  }

  // ----- a buffer that is too small -----

  /** Never begun: short of a full buffer, and no begin is pending. */
  ghost predicate Stuck(cfg: Config, c: Control, d: Device)
  {
    && Coherent(cfg, c, d)
    && d.playback != Playing && c.action != Begin
    && (d.playback == Prepared ==> d.fullness < cfg.capacity || cfg.capacity == 0)
  }

  lemma StuckTurn(cfg: Config, c: Control, d: Device, threshold: nat, supply: (nat, nat) -> nat)
    requires Stuck(cfg, c, d) && cfg.capacity <= MIN_BUFFER_POINTS
    ensures var t := Turn(cfg, c, d, d.fullness, threshold, supply);
            Stuck(cfg, t.0, t.1)
  {
    hide Target, FillRequest, ShouldRequest;
    TargetFacts(cfg);
    var decision := Decide(cfg, c, d.fullness, threshold, supply);
    if decision.Send? {
      var (d', reply) := Obey(d, decision.command);
      if d'.light == Ready {
        UpdatedOnPlausible(cfg, c, d'.Report());
      }
    }
  }

  lemma {:induction false} SmallBufferNeverPlays(cfg: Config, c: Control, d: Device, threshold: nat,
                                                 supplies: nat -> (nat, nat) -> nat, k: nat)
    requires Stuck(cfg, c, d) && cfg.capacity <= MIN_BUFFER_POINTS
    ensures var s := AfterTurns(cfg, c, d, threshold, supplies, k);
            Stuck(cfg, s.0, s.1) && !Running(s.0)
    decreases k
  {
    hide Turn, Target;
    if k > 0 {
      SmallBufferNeverPlays(cfg, c, d, threshold, supplies, k - 1);
      var s := AfterTurns(cfg, c, d, threshold, supplies, k - 1);
      StuckTurn(cfg, s.0, s.1, threshold, supplies(k - 1));
    }
  }

  /** A device found idle is brought to playing if and only if its buffer holds more than the minimum
      target of 256 points. With a smaller buffer the target is the whole buffer, which the spare
      point of write headroom keeps out of reach. */
  lemma IdleDeviceStartsExactlyWhenLargeEnough(cfg: Config, c: Control, d: Device, threshold: nat,
                                               supplies: nat -> (nat, nat) -> nat)
    requires Coherent(cfg, c, d) && d.light == Ready && d.playback == Idle && AllWilling(supplies)
    ensures (exists k: nat :: Running(AfterTurns(cfg, c, d, threshold, supplies, k).0))
       <==> cfg.capacity > MIN_BUFFER_POINTS
  {
    hide AfterTurns, Target, AllWilling, Running;
    if cfg.capacity > MIN_BUFFER_POINTS {
      PlaybackStarts(cfg, c, d, threshold, supplies);
    } else {
      forall k: nat
        ensures !Running(AfterTurns(cfg, c, d, threshold, supplies, k).0)
      {
        SmallBufferNeverPlays(cfg, c, d, threshold, supplies, k);
      }
    }
  }

  // ----- data packets fit -----

  /** Points a device playing at the host's rate has shown at least, since its report was received. */
  function PlayedSince(cfg: Config, status: Status, receivedAt: Time, now: Time): nat
  {
    if status.playback == Playing && now > receivedAt
    then cfg.rate * ((now - receivedAt) / 1000) / 1_000_000
    else 0
  }

  /** The most such a device can still hold. */
  function Left(cfg: Config, status: Status, receivedAt: Time, now: Time): nat
  {
    Max(0, status.fullness - PlayedSince(cfg, status, receivedAt, now))
  }

  /** More than half of the next point has played as well, so that rounding to nearest counts it. */
  predicate RoundsDown(cfg: Config, status: Status, receivedAt: Time, now: Time)
  {
    && status.playback == Playing && receivedAt != 0 && now > receivedAt
    && cfg.rate * ((now - receivedAt) / 1000) % 1_000_000 > 500_000
    && Left(cfg, status, receivedAt, now) > 0
  }

  ghost predicate Reported(cfg: Config, status: Status)
  {
    status.fullness <= cfg.capacity <= INT_MAX
  }

  /** The estimate is never too low by more than one point, and by one exactly when rounding counts a
      point that is still playing. */
  lemma EstimateIsAtMostOneLow(cfg: Config, status: Status, receivedAt: Time, now: Time)
    requires Reported(cfg, status)
    ensures var estimated, left := EstimatedFullness(cfg, status, receivedAt, now), Left(cfg, status, receivedAt, now);
            && left - 1 <= estimated <= cfg.capacity && 0 <= estimated
            && (estimated < left <==> RoundsDown(cfg, status, receivedAt, now))
  {
    if status.playback == Playing && now > receivedAt {
      var us := (now - receivedAt) / 1000;
      ProjectionIsAtMostOneLow(status.fullness, cfg.rate, us);
    }
  }

  /** A device that holds no more than it is taken to hold keeps one point free, and accepts. */
  lemma PacketLeavesOneFree(cfg: Config, c: Control, d: Device, estimated: int, threshold: nat,
                            supply: (nat, nat) -> nat)
    requires d.capacity == cfg.capacity && Willing(supply) && d.fullness <= estimated
    requires d.light == c.status.light && d.playback == c.status.playback
    ensures var decision := Decide(cfg, c, estimated, threshold, supply);
            decision.Send? && decision.command.DataCommand? ==>
              d.fullness + decision.command.points < d.capacity && Obey(d, decision.command).1 == Ack
  {
    hide Target;
    var request := FillRequest(cfg, estimated);
    assert request.0 <= supply(request.0, request.1) <= request.1 <= UsableFreeSpace(cfg, estimated);
  }

  /** Whatever the device has played since its report, a data packet never exceeds the free space it
      really has. One point of it stays free, and the packet is accepted, unless the estimate was
      rounded down: the write headroom of one point covers that error and no more. */
  lemma DataPacketsFit(cfg: Config, c: Control, d: Device, receivedAt: Time, now: Time, threshold: nat,
                       supply: (nat, nat) -> nat)
    requires Reported(cfg, c.status) && d.capacity == cfg.capacity && Willing(supply)
    requires d.light == c.status.light && d.playback == c.status.playback
    requires d.fullness <= Left(cfg, c.status, receivedAt, now)
    ensures var decision := Decide(cfg, c, EstimatedFullness(cfg, c.status, receivedAt, now), threshold, supply);
            decision.Send? && decision.command.DataCommand? ==>
              && d.fullness + decision.command.points <= d.capacity
              && decision.command.points <= MAX_PACKET_POINTS
              && (!RoundsDown(cfg, c.status, receivedAt, now) ==>
                    d.fullness + decision.command.points < d.capacity && Obey(d, decision.command).1 == Ack)
  {
    hide Target, EstimatedFullness, Left, RoundsDown, Obey;
    EstimateIsAtMostOneLow(cfg, c.status, receivedAt, now);
    var estimated := EstimatedFullness(cfg, c.status, receivedAt, now);
    var request := FillRequest(cfg, estimated);
    assert request.0 <= supply(request.0, request.1) <= request.1 <= UsableFreeSpace(cfg, estimated);
    assert request.1 <= MAX_PACKET_POINTS;
    if d.fullness <= estimated {
      PacketLeavesOneFree(cfg, c, d, estimated, threshold, supply);
    }
  }

  ghost predicate OneStaysFree(cfg: Config, actual: nat, points: nat) { actual + points < cfg.capacity }

  /** Exactly when every packet that may be asked for leaves a point free, whatever the device has
      played: unless the estimate was rounded down, the buffer was not full, and the free space fits
      one packet. */
  lemma OnePointStaysFreeExactly(cfg: Config, status: Status, receivedAt: Time, now: Time)
    requires Reported(cfg, status)
    ensures var left := Left(cfg, status, receivedAt, now);
            var most := FillRequest(cfg, EstimatedFullness(cfg, status, receivedAt, now)).1;
            (forall actual: nat, points: nat :: actual <= left && 0 < points <= most ==> OneStaysFree(cfg, actual, points))
            <==> !(RoundsDown(cfg, status, receivedAt, now) && 0 < cfg.capacity - left <= MAX_PACKET_POINTS)
  {
    hide Target, EstimatedFullness, Left, RoundsDown;
    EstimateIsAtMostOneLow(cfg, status, receivedAt, now);
    var estimated, left := EstimatedFullness(cfg, status, receivedAt, now), Left(cfg, status, receivedAt, now);
    var most := FillRequest(cfg, estimated).1;
    if estimated < left && 0 < cfg.capacity - left <= MAX_PACKET_POINTS {
      assert most == cfg.capacity - left;
      assert !OneStaysFree(cfg, left, most);
    }
  }

  /** A device of 1000 points reports 600 and plays 30000 points per second for 3353 microseconds: it
      still holds 500, is taken to hold 499, and refuses the 500 points it is sent. */
  lemma RoundedPacketIsRefused(receivedAt: Time)
    requires receivedAt > 0
    ensures var cfg := Config(1000, 30000, 0, 100000);
            var c := Control(NoAction, Status(Ready, Playing, 600, 30000), false, false, 30000, false);
            var now := receivedAt + 3_353_000;
            var decision := Decide(cfg, c, EstimatedFullness(cfg, c.status, receivedAt, now), 1000, (least, most) => most);
            && Left(cfg, c.status, receivedAt, now) == 500
            && decision == Send(DataCommand(500))
            && Obey(Device(Ready, Playing, 500, 30000, 1000, false), decision.command).1 == Full
  {
    var cfg := Config(1000, 30000, 0, 100000);
    var status := Status(Ready, Playing, 600, 30000);
    var now := receivedAt + 3_353_000;
    assert 30000 * 3353 == 100 * 1_000_000 + 590_000;
    EstimateIsAtMostOneLow(cfg, status, receivedAt, now);
    hide Target;
  }

  // ----- while playing -----

  /** A source that never answers a request with nothing. */
  ghost predicate Eager(supply: (nat, nat) -> nat)
  {
    forall least: nat, most: nat :: 0 < most ==> supply(least, most) > 0
  }

  /** While playing at the rate it was begun with, the device is sent data exactly when its buffer is below
      the underrun threshold and not full to the last point but one, or when 150 points are missing
      from the target. What it is sent makes up for all that is missing, as far as one packet goes. */
  lemma PlayingIsRefilledExactly(cfg: Config, c: Control, estimated: int, threshold: nat, supply: (nat, nat) -> nat)
    requires Running(c) && (c.sentRate == cfg.rate || c.sentRate == 0)
    requires cfg.capacity > 256 && 0 <= estimated <= cfg.capacity && Willing(supply) && Eager(supply)
    ensures var decision, missing := Decide(cfg, c, estimated, threshold, supply), Target(cfg) - estimated;
            if (if estimated < threshold then estimated + 1 < cfg.capacity else missing >= 150) then
              && decision.Send? && decision.command.DataCommand?
              && Max(1, Min(missing, 3640)) <= decision.command.points < cfg.capacity - estimated
            else decision == Rest
  {
    TargetFacts(cfg);
    hide Target;
    var request := FillRequest(cfg, estimated);
    assert request.0 <= supply(request.0, request.1) <= request.1;
  }

  /** The target is what plays in the latency, to the nearest point, wherever 256 points and the safety
      headroom of 512 leave room for that. */
  lemma TargetFollowsLatency(cfg: Config)
    requires cfg.rate > 0 && cfg.capacity <= INT_MAX
    requires 256_000 <= cfg.rate * cfg.latencyMillis <= 1000 * (cfg.capacity - 512)
    ensures -500 <= 1000 * Target(cfg) - cfg.rate * cfg.latencyMillis <= 500
    ensures 256 <= Target(cfg) <= cfg.capacity - 512
  {
    RoundedToNearest(cfg.rate * cfg.latencyMillis);
    hide Round;
  }

  lemma RoundedToNearest(x: nat)
    ensures -500 <= 1000 * Round(x as real / 1000.0) - x <= 500
  {
    var r := Round(x as real / 1000.0);
    assert r as real - 0.5 <= x as real / 1000.0 <= r as real + 0.5;
    assert 1000.0 * r as real - 500.0 <= x as real <= 1000.0 * r as real + 500.0;
    assert (1000 * r - x) as real <= 500.0 && (1000 * r - x) as real >= -500.0;
  }

  // ----- an implausible rate, and a change of rate -----

  ghost predicate Implausible(cfg: Config, s: Status)
  {
    s.light == Ready && (s.playback == Prepared || s.playback == Playing) && s.rate > cfg.maxRate
  }

  ghost predicate IsUsable(s: Status)
  {
    s.light == Ready && s.playback != Paused && s.playback != UnknownPlayback
  }

  ghost function AfterReports(cfg: Config, c: Control, reports: seq<Status>): Control
  {
    if reports == [] then c
    else Updated(cfg, AfterReports(cfg, c, reports[..|reports| - 1]), reports[|reports| - 1])
  }

  /** A device that reports an implausible rate is cleared once, and then stopped for as long as it goes
      on; the first usable report with a plausible rate forgets both. */
  lemma {:induction false} ImplausibleRateIsClearedThenStopped(cfg: Config, c: Control, reports: seq<Status>)
    requires !c.recoveryPending && !c.rebootLatched
    requires reports != [] && forall i :: 0 <= i < |reports| ==> Implausible(cfg, reports[i])
    ensures var after := AfterReports(cfg, c, reports);
            && after.action == (if |reports| == 1 then Clear else Stop)
            && after.recoveryPending && after.rebootLatched == (|reports| > 1)
            && forall next: Status :: IsUsable(next) && !Implausible(cfg, next) ==>
                 var recovered := Updated(cfg, after, next);
                 !recovered.recoveryPending && !recovered.rebootLatched
    decreases |reports|
  {
    var before := reports[..|reports| - 1];
    if |reports| > 1 {
      ImplausibleRateIsClearedThenStopped(cfg, c, before);
    } else {
      assert before == [];
    }
  }

  /** Once begun, playback goes on at the rate it was begun with; as soon as the host's rate is another,
      the next turn stops it. */
  lemma RateChangeRestarts(cfg: Config, c: Control, playing: Status, rate: nat, estimated: int, threshold: nat,
                           supply: (nat, nat) -> nat)
    requires cfg.rate > 0 && !Implausible(cfg, playing)
    requires playing.light == Ready && playing.playback == Playing
    ensures var begun := AfterSend(cfg, c, BeginCommand(cfg.rate), Response(Ack, true, playing)).0;
            var later := cfg.(rate := rate);
            && (Decide(later, begun, estimated, threshold, supply) == Restart <==> rate != cfg.rate)
            && (rate != cfg.rate ==> forall d: Device :: Turn(later, begun, d, estimated, threshold, supply)
                                                      == (begun.(action := Stop), d))
  {
    hide Target;
  }

  // ----- the loop -----

  /** The inner loop of `run` until playback is under way: it terminates, because each turn
      decreases the rank. */
  method RunUntilPlaying(controller: Controller, d: Device, threshold: nat, supply: (nat, nat) -> nat)
    returns (d': Device, turns: nat)
    requires Coherent(controller.cfg, controller.State(), d)
    requires controller.cfg.capacity > MIN_BUFFER_POINTS && Willing(supply)
    modifies controller
    ensures Coherent(controller.cfg, controller.State(), d') && Running(controller.State())
    ensures turns <= Rank(controller.cfg, old(controller.State()))
  {
    hide Turn, Coherent, Rank;
    d', turns := d, 0;
    RankIsNotNegative(controller.cfg, controller.State());
    while !(controller.action == NoAction && controller.status.light == Ready
            && controller.status.playback == Playing)
      invariant Coherent(controller.cfg, controller.State(), d')
      invariant 0 <= Rank(controller.cfg, controller.State())
      invariant turns + Rank(controller.cfg, controller.State()) <= Rank(controller.cfg, old(controller.State()))
      decreases Rank(controller.cfg, controller.State())
    {
      TurnDecreasesRank(controller.cfg, controller.State(), d', threshold, supply);
      d' := controller.RunTurn(d', d'.fullness, threshold, supply);
      turns := turns + 1;
    }
  }
}
