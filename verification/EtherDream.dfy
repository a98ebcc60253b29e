/** The Ether Dream playback machine: stop, clear, prepare, fill, begin, with recovery in place, as in
src/EtherDream/EtherDreamController.cpp.

The controller only ever acts on the last status the device reported. `Turn` is one turn of the inner
loop of `run`; `Controller` performs it on fields, against a device that answers every command. */
module EtherDream {
  import opened Arithmetic
  import opened BufferEstimator

  datatype LightEngine = Ready | Warmup | Cooldown | Estop | UnknownLight

  datatype Playback = Idle | Prepared | Playing | Paused | UnknownPlayback

  datatype Status = Status(light: LightEngine, playback: Playback, fullness: nat, rate: nat)

  datatype Action = NoAction | Stop | Clear | Prepare | Begin

  datatype Config = Config(capacity: nat, rate: nat, latencyMillis: nat, maxRate: nat)

  const MIN_BUFFER_POINTS: nat := 256
  const SAFETY_HEADROOM_POINTS: nat := 512
  const WRITE_HEADROOM_POINTS: nat := 1
  const MAX_PACKET_POINTS: nat := 3640
  const NORMAL_REFILL_MIN_DEFICIT: nat := 150

  // ----- buffer arithmetic -----

  function Target(cfg: Config): int
  {
    TargetBufferPoints(cfg.rate, cfg.capacity, cfg.latencyMillis, MIN_BUFFER_POINTS, SAFETY_HEADROOM_POINTS)
  }

  function UsableFreeSpace(cfg: Config, fullness: int): (free: nat)
    ensures free > 0 ==> Clamp(fullness, 0, cfg.capacity) + free == cfg.capacity - WRITE_HEADROOM_POINTS
  {
    if cfg.capacity == 0 then 0
    else
      var raw := Max(0, cfg.capacity - Clamp(fullness, 0, cfg.capacity));
      raw - Min(raw, WRITE_HEADROOM_POINTS)
  }

  /** How full the device is taken to be at `now`: its last report, less what has played since it was
      received. */
  function EstimatedFullness(cfg: Config, status: Status, receivedAt: Time, now: Time): (estimated: int)
    ensures status.playback != Playing ==> estimated == status.fullness
  {
    var estimate := EstimateFromSnapshot(status.fullness, receivedAt,
                                         if status.playback == Playing then cfg.rate else 0, now);
    if estimate.projected then Clamp(estimate.fullness, 0, cfg.capacity) else status.fullness
  }

  /** Least and most points wanted, given how full the device is taken to be. */
  function FillRequest(cfg: Config, estimated: int): (r: (nat, nat))
    ensures r.0 <= r.1 <= UsableFreeSpace(cfg, estimated)
  {
    var space := Min(UsableFreeSpace(cfg, estimated), MAX_PACKET_POINTS);
    var deficit := if estimated >= Target(cfg) then 0 else Target(cfg) - estimated;
    (Min(deficit, space), space)
  }

  predicate ShouldRequest(cfg: Config, status: Status, estimated: int, underrunThreshold: nat, request: (nat, nat))
  {
    if status.light == Ready && status.playback == Prepared && status.fullness < Target(cfg) then
      request.0 > 0
    else if status.light == Ready && status.playback == Playing && estimated < underrunThreshold then
      request.1 > 0
    else
      request.0 >= NORMAL_REFILL_MIN_DEFICIT
  }

  // ----- decisions on a status -----

  function ActionFor(cfg: Config, status: Status): Action
  {
    if status.light == UnknownLight then NoAction
    else if status.light == Estop then Clear
    else if status.light != Ready then NoAction
    else if status.playback == UnknownPlayback || status.playback == Paused then Stop
    else if status.playback == Idle then Prepare
    else if status.playback == Prepared && Target(cfg) > 0 && status.fullness >= Target(cfg) then Begin
    else NoAction
  }

  predicate AllowsRateRecovery(status: Status)
  {
    status.light == Ready && status.playback != UnknownPlayback && status.playback != Paused
  }

  predicate RateIsImplausible(cfg: Config, status: Status)
  {
    (status.playback == Prepared || status.playback == Playing) && status.rate > cfg.maxRate
  }

  /** What the controller remembers. */
  datatype Control = Control(action: Action, status: Status, recoveryPending: bool, rebootLatched: bool,
                             sentRate: nat, clearOnFresh: bool)

  function Updated(cfg: Config, c: Control, status: Status): Control
  {
    var c1 := c.(status := status, action := ActionFor(cfg, status));
    if AllowsRateRecovery(status) && RateIsImplausible(cfg, status) then
      if !c.recoveryPending && !c.rebootLatched then c1.(recoveryPending := true, action := Clear)
      else c1.(rebootLatched := true, action := Stop)
    else if !AllowsRateRecovery(status) then c1
    else c1.(recoveryPending := false, rebootLatched := false)
  }

  function FreshlyConnected(c: Control, status: Status): Control
  {
    if c.clearOnFresh && (status.light == Ready || status.light == Estop) then
      c.(clearOnFresh := false, action := Clear)
    else if status.light == Estop then c.(action := Clear)
    else if status.light != Ready then c.(action := NoAction)
    else if status.playback == Idle then c.(action := Prepare)
    else c.(action := Stop)
  }

  // ----- responses -----

  datatype Command = StopCommand | ClearCommand | PrepareCommand | BeginCommand(rate: nat)
                   | DataCommand(points: nat) | PingCommand

  datatype Reply = Ack | StopCondition | Invalid | Full | Other

  datatype Response = Response(reply: Reply, matches: bool, status: Status)

  datatype Outcome = Success | RecoverInPlace | ProtocolFailure

  function Handled(cfg: Config, c: Control, command: Command, r: Response): (Control, Outcome)
  {
    var c1 := Updated(cfg, c, r.status);
    if r.matches && r.reply == StopCondition then (c1, RecoverInPlace)
    else if r.matches && (r.reply == Invalid || r.reply == Full) then
      (if command.DataCommand? then c1.(action := Clear) else c1, RecoverInPlace)
    else if r.matches && r.reply == Ack then (c1, Success)
    else (c1, ProtocolFailure)
  }

  /** What the sender of a command adds once the response has been handled. */
  function AfterSend(cfg: Config, c: Control, command: Command, r: Response): (Control, Outcome)
  {
    var (c1, outcome) := Handled(cfg, c, command, r);
    if outcome != Success then (c1, outcome)
    else
      match command
      case StopCommand =>
        var c2 := c1.(sentRate := 0);
        (if r.status.light == Ready && r.status.playback != Idle then c2.(action := Stop) else c2, outcome)
      case PrepareCommand =>
        (if r.status.light == Ready && r.status.playback != Idle && r.status.playback != Prepared
         then c1.(action := Stop) else c1, outcome)
      case BeginCommand(rate) =>
        (if r.status.playback == Playing then c1.(sentRate := rate) else c1, outcome)
      case _ => (c1, outcome)
  }

  // ----- one turn of the loop -----

  /** What a turn decides to do: send a command, or change the action only. */
  datatype Decision = Send(command: Command) | Restart | Rest

  predicate CanSendData(c: Control)
  {
    c.action == NoAction && c.status.light == Ready
    && (c.status.playback == Prepared || c.status.playback == Playing)
  }

  /** `estimated` is how full the device is taken to be, `supply` how many points the source gives for
      a least and a most. */
  function Decide(cfg: Config, c: Control, estimated: int, underrunThreshold: nat, supply: (nat, nat) -> nat)
    : Decision
  {
    match c.action
    case Stop => Send(StopCommand)
    case Clear => Send(ClearCommand)
    case Prepare => Send(PrepareCommand)
    case Begin => Send(BeginCommand(cfg.rate))
    case NoAction =>
      if cfg.rate != c.sentRate && c.sentRate != 0 && c.status.playback == Playing then Restart
      else if !CanSendData(c) then Send(PingCommand)
      else
        var request := FillRequest(cfg, estimated);
        if !ShouldRequest(cfg, c.status, estimated, underrunThreshold, request) then Rest
        else
          var points := supply(request.0, request.1);
          if points == 0 then Rest else Send(DataCommand(points))
  }

  // ----- a device that obeys -----

  /** `clearIdles` says whether a clear outside an emergency stop also ends playback. */
  datatype Device = Device(light: LightEngine, playback: Playback, fullness: nat, rate: nat,
                           capacity: nat, clearIdles: bool)
  {
    function Report(): Status { Status(light, playback, fullness, rate) }
  }

  function Obey(d: Device, command: Command): (Device, Reply)
  {
    match command
    case PingCommand => (d, Ack)
    case ClearCommand =>
      if d.light == Estop then (d.(light := Ready, playback := Idle, fullness := 0), Ack)
      else if d.clearIdles then (d.(playback := Idle, fullness := 0), Ack)
      else (d, Ack)
    case StopCommand =>
      if d.light != Ready then (d, StopCondition) else (d.(playback := Idle, fullness := 0), Ack)
    case PrepareCommand =>
      if d.light != Ready then (d, StopCondition)
      else if d.playback != Idle then (d, Invalid)
      else (d.(playback := Prepared, fullness := 0), Ack)
    case BeginCommand(rate) =>
      if d.light != Ready then (d, StopCondition)
      else if d.playback != Prepared || d.fullness == 0 then (d, Invalid)
      else (d.(playback := Playing, rate := rate), Ack)
    case DataCommand(points) =>
      if d.light != Ready then (d, StopCondition)
      else if d.playback != Prepared && d.playback != Playing then (d, Invalid)
      else if d.fullness + points >= d.capacity then (d, Full)
      else (d.(fullness := d.fullness + points), Ack)
  }

  function Turn(cfg: Config, c: Control, d: Device, estimated: int, underrunThreshold: nat,
                supply: (nat, nat) -> nat): (Control, Device)
  {
    match Decide(cfg, c, estimated, underrunThreshold, supply)
    case Rest => (c, d)
    case Restart => (c.(action := Stop), d)
    case Send(command) =>
      var (d', reply) := Obey(d, command);
      (AfterSend(cfg, c, command, Response(reply, true, d'.Report())).0, d')
  }

  // ----- the class -----

  class Controller {
    const cfg: Config
    var action: Action
    var status: Status
    var recoveryPending: bool
    var rebootLatched: bool
    var sentRate: nat
    var clearOnFresh: bool

    ghost function State(): Control
      reads this
    {
      Control(action, status, recoveryPending, rebootLatched, sentRate, clearOnFresh)
    }

    /** The protocol state of a new connection. */
    constructor (cfg: Config, clearOnFresh: bool)
      ensures this.cfg == cfg
      ensures State() == Control(Prepare, Status(Ready, Idle, 0, 0), false, false, 0, clearOnFresh)
    {
      this.cfg := cfg;
      action, status := Prepare, Status(Ready, Idle, 0, 0);
      recoveryPending, rebootLatched, sentRate := false, false, 0;
      this.clearOnFresh := clearOnFresh;
    }

    method UpdatePlaybackRequirements(reported: Status)
      modifies this
      ensures State() == Updated(cfg, old(State()), reported)
    {
      status := reported;
      action := ActionFor(cfg, reported);
      if AllowsRateRecovery(reported) && RateIsImplausible(cfg, reported) {
        if !recoveryPending && !rebootLatched {
          recoveryPending := true;
          action := Clear;
          return;
        }
        if !rebootLatched {
          rebootLatched := true;
        }
        action := Stop;
        return;
      }
      if !AllowsRateRecovery(reported) {
        return;
      }
      recoveryPending := false;
      rebootLatched := false;
    }

    method ApplyFreshConnectionStatus(reported: Status)
      modifies this
      ensures State() == FreshlyConnected(old(State()), reported)
    {
      if clearOnFresh && (reported.light == Ready || reported.light == Estop) {
        clearOnFresh := false;
        action := Clear;
        return;
      }
      if reported.light == Estop {
        action := Clear;
        return;
      }
      if reported.light != Ready {
        action := NoAction;
        return;
      }
      if reported.playback == Idle {
        action := Prepare;
        return;
      }
      action := Stop;
    }

    method HandleResponse(command: Command, r: Response) returns (outcome: Outcome)
      modifies this
      ensures (State(), outcome) == Handled(cfg, old(State()), command, r)
    {
      UpdatePlaybackRequirements(r.status);
      if r.matches && r.reply == StopCondition {
        return RecoverInPlace;
      }
      if r.matches && (r.reply == Invalid || r.reply == Full) {
        if command.DataCommand? {
          action := Clear;
        }
        return RecoverInPlace;
      }
      if r.reply != Ack || !r.matches {
        return ProtocolFailure;
      }
      return Success;
    }

    method SendCommand(command: Command, r: Response) returns (outcome: Outcome)
      modifies this
      ensures (State(), outcome) == AfterSend(cfg, old(State()), command, r)
    {
      outcome := HandleResponse(command, r);
      if outcome != Success {
        return;
      }
      match command {
        case StopCommand =>
          sentRate := 0;
          if r.status.light == Ready && r.status.playback != Idle {
            action := Stop;
          }
        case PrepareCommand =>
          if r.status.light == Ready && r.status.playback != Idle && r.status.playback != Prepared {
            action := Stop;
          }
        case BeginCommand(rate) =>
          if r.status.playback == Playing {
            sentRate := rate;
          }
        case _ =>
      }
    }

    /** One turn of the inner loop of `run` against a device. */
    method RunTurn(d: Device, estimated: int, underrunThreshold: nat, supply: (nat, nat) -> nat)
      returns (d': Device)
      modifies this
      ensures (State(), d') == Turn(cfg, old(State()), d, estimated, underrunThreshold, supply)
    {
      hide Updated, FillRequest, ShouldRequest;
      var decision := Rest;
      d' := d;
      match action {
        case Stop => decision := Send(StopCommand);
        case Clear => decision := Send(ClearCommand);
        case Prepare => decision := Send(PrepareCommand);
        case Begin => decision := Send(BeginCommand(cfg.rate));
        case NoAction =>
          if cfg.rate != sentRate && sentRate != 0 && status.playback == Playing {
            action := Stop;
            return;
          }
          if !(status.light == Ready && (status.playback == Prepared || status.playback == Playing)) {
            decision := Send(PingCommand);
          } else {
            var request := FillRequest(cfg, estimated);
            if ShouldRequest(cfg, status, estimated, underrunThreshold, request) {
              var points := supply(request.0, request.1);
              if points != 0 {
                decision := Send(DataCommand(points));
              }
            }
          }
      }
      if decision.Send? {
        var answer := Obey(d, decision.command);
        d' := answer.0;
        var outcome := SendCommand(decision.command, Response(answer.1, true, answer.0.Report()));
      }
    }
  }
}
