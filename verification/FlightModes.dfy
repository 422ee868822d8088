/** The flight mode machine of the LinkQuad autopilot (Linkquad_Autopilot.cpp) and its climb
    controller (Linkquad_AltSpeedController.cpp): when the motors may stop, how long landing
    and take-off last, and which climb speed is asked for. Times are in seconds, heights in
    metres, thrust in thousandths. */
module FlightModes {
  import opened Filters
  import opened Wrappers

  datatype FlyingMode = IDLE | TAKEOFF | HOVER | MOVE | LAND | INIT | EMERGENCYSTOP

  datatype DroneMode = LANDED | FLYING | HOVERING | TAKINGOFF | LANDING | EMERGENCY | UNKNOWN

  const TAKEOFF_SPEED := 1.0
  const TAKEOFF_FINAL_ALTITUDE := 1.1
  const ON_GROUND_ALTITUDE := 0.32
  const MAX_TAKINGOFF_TIME_S := 5.0
  const LANDING_SPEED := 0.4
  const ALTITUDE_FOR_LANDING_WITH_TIME := 0.40
  const LANDING_WITH_TIME_MAX_SECONDS := 1.0
  const LANDING_WITH_TIME_FIXED_THRUST := 0.5
  const MAX_ALTITUDE := 4.5
  const MAX_ALTITUDE_DESCENDING_SPEED := 0.2
  const MAX_ALLOWED_ALTITUDE_SPEED := 0.5
  const FEEDFORWARD := 0.7
  const COMMAND_UPPER_LIMIT := 0.2
  const COMMAND_LOWER_LIMIT := -0.2

  // ------------------------------------------------------------ one step

  datatype Pilot = Pilot(mode: DroneMode, withTime: bool, landingStart: real, takingoffStart: real, enabled: bool)

  /** What one run of the control thread finds: the last command, the last measured height,
      the time, the output of the climb controller's PID, and whether the packet goes out. */
  datatype Input = Input(command: FlyingMode, height: real, now: real, pid: real, sent: bool)

  /** The mode switch of run. */
  function Decide(p: Pilot, command: FlyingMode, height: real, now: real): Pilot {
    match p.mode
    case FLYING => p.(mode := if command == HOVER then HOVERING else if command == LAND then LANDING else FLYING)
    case TAKINGOFF =>
      var risen := height >= TAKEOFF_FINAL_ALTITUDE || now - p.takingoffStart >= MAX_TAKINGOFF_TIME_S;
      p.(mode := if command == LAND then LANDING else if risen || command == HOVER then HOVERING else TAKINGOFF)
    case HOVERING => p.(mode := if command == MOVE then FLYING else if command == LAND then LANDING else HOVERING)
    case LANDED => if command == TAKEOFF then p.(mode := TAKINGOFF, takingoffStart := now) else p
    case LANDING =>
      var q := if !p.withTime then
          if height < ALTITUDE_FOR_LANDING_WITH_TIME then p.(withTime := true, landingStart := now) else p
        else if now - p.landingStart > LANDING_WITH_TIME_MAX_SECONDS then p.(mode := LANDED, withTime := false)
        else p;
      if command == TAKEOFF then q.(mode := TAKINGOFF, takingoffStart := now, withTime := false) else q
    case _ => p
  }

  predicate Airborne(m: DroneMode) { m == FLYING || m == HOVERING || m == TAKINGOFF || m == LANDING }

  /** The mode commands of run switch the climb controller. */
  function Switch(p: Pilot): Pilot {
    p.(enabled := if Airborne(p.mode) then true else if p.mode == LANDED then false else p.enabled)
  }

  function Clamp(x: real, lo: real, hi: real): (y: real)
    requires lo <= hi
    ensures lo <= y <= hi && (y == x || y == lo || y == hi)
    ensures lo <= x <= hi ==> y == x
    ensures (x < lo ==> y == lo) && (x > hi ==> y == hi)
  {
    if x < lo then lo else if x > hi then hi else x
  }

  function ClimbOutput(enabled: bool, pid: real): real {
    if enabled then Clamp(pid, COMMAND_LOWER_LIMIT, COMMAND_UPPER_LIMIT) + FEEDFORWARD else 0.0
  }

  function Thrust(p: Pilot, pid: real): real {
    if p.withTime then LANDING_WITH_TIME_FIXED_THRUST * 1000.0 else ClimbOutput(p.enabled, pid) * 1000.0
  }

  /** run: the mode is stored only after the packet has gone out; the rest has changed by then. */
  function After(p: Pilot, i: Input): Pilot {
    var d := Switch(Decide(p, i.command, i.height, i.now));
    if i.sent then d else d.(mode := p.mode)
  }

  // ------------------------------------------------------------ runs

  /** What a step did: the stored mode it found, the mode it chose, the thrust it computed. */
  datatype Record = Record(before: DroneMode, input: Input, chosen: DroneMode, thrust: real)

  function RecordOf(p: Pilot, i: Input): Record {
    var d := Switch(Decide(p, i.command, i.height, i.now));
    Record(p.mode, i, d.mode, Thrust(d, i.pid))
  }

  function Run(p: Pilot, inputs: seq<Input>): Pilot {
    if inputs == [] then p else After(Run(p, inputs[..|inputs| - 1]), inputs[|inputs| - 1])
  }

  function Log(p: Pilot, inputs: seq<Input>): (log: seq<Record>)
    ensures |log| == |inputs|
  {
    if inputs == [] then [] else
      var n := |inputs| - 1;
      Log(p, inputs[..n]) + [RecordOf(Run(p, inputs[..n]), inputs[n])]
  }

  /** The mode that the first sample decides, before run does anything. */
  function FirstMode(height: real): DroneMode {
    if height <= ALTITUDE_FOR_LANDING_WITH_TIME then LANDED else HOVERING
  }

  /** The state after open and the first sample; the timers and the controller are left over. */
  predicate Fresh(p: Pilot) {
    (p.mode == LANDED || p.mode == HOVERING) && !p.withTime
  }

  predicate Sane(p: Pilot) {
    (p.mode == LANDED || Airborne(p.mode)) && (p.withTime ==> p.mode == LANDING)
  }

  /** The landing timer: step m measured a height below the limit and started it, and LANDING
      was kept ever since, with the fixed thrust. */
  predicate LandingSince(log: seq<Record>, m: nat, start: real) {
    && m < |log|
    && log[m].input.height < ALTITUDE_FOR_LANDING_WITH_TIME && log[m].input.now == start
    && forall k :: m <= k < |log| ==> Landing(log[k])
  }

  predicate Landing(r: Record) {
    r.before == LANDING && r.chosen == LANDING && r.thrust == LANDING_WITH_TIME_FIXED_THRUST * 1000.0
  }

  /** The take-off timer: step m obeyed a take-off command in another mode and started it, and
      the vehicle has been taking off ever since. */
  predicate TakeoffSince(log: seq<Record>, m: nat, start: real) {
    && m < |log|
    && log[m].before != TAKINGOFF && log[m].chosen == TAKINGOFF
    && log[m].input.command == TAKEOFF && log[m].input.now == start && log[m].input.sent
    && forall k :: m < k < |log| ==> log[k].before == TAKINGOFF
  }

  ghost predicate Inv(p: Pilot, log: seq<Record>) {
    && Sane(p)
    && (p.withTime ==> exists m :: LandingSince(log, m, p.landingStart))
    && (p.mode == TAKINGOFF ==> exists m :: TakeoffSince(log, m, p.takingoffStart))
  }

  lemma {:induction false} StepKeepsSane(p: Pilot, i: Input)
    requires Sane(p)
    ensures Sane(After(p, i))
  {}

  lemma {:induction false} StepKeepsInv(p: Pilot, log: seq<Record>, i: Input)
    requires Inv(p, log)
    ensures Inv(After(p, i), log + [RecordOf(p, i)])
  {
    var r, q := RecordOf(p, i), After(p, i);
    var log' := log + [r];
    if q.withTime {
      if p.withTime {
        var m :| LandingSince(log, m, p.landingStart);
        assert LandingSince(log', m, q.landingStart);
      } else {
        assert LandingSince(log', |log|, q.landingStart);
      }
    }
    if q.mode == TAKINGOFF {
      if p.mode == TAKINGOFF {
        var m :| TakeoffSince(log, m, p.takingoffStart);
        assert TakeoffSince(log', m, q.takingoffStart);
      } else {
        assert TakeoffSince(log', |log|, q.takingoffStart);
      }
    }
  }

  lemma {:induction false} InvOverRuns(p: Pilot, inputs: seq<Input>)
    requires Fresh(p)
    ensures Inv(Run(p, inputs), Log(p, inputs))
    decreases |inputs|
  {
    if inputs != [] {
      var n := |inputs| - 1;
      InvOverRuns(p, inputs[..n]);
      StepKeepsInv(Run(p, inputs[..n]), Log(p, inputs[..n]), inputs[n]);
    }
  }

  lemma {:induction false} LogPrefix(p: Pilot, inputs: seq<Input>, n: nat)
    requires n < |inputs|
    ensures Log(p, inputs)[..n] == Log(p, inputs[..n])
    ensures Log(p, inputs)[n] == RecordOf(Run(p, inputs[..n]), inputs[n])
    decreases |inputs|
  {
    var l := |inputs| - 1;
    if n < l {
      LogPrefix(p, inputs[..l], n);
      assert inputs[..l][..n] == inputs[..n];
      assert Log(p, inputs)[..n] == Log(p, inputs[..l])[..n];
    }
  }

  /** The motors are off exactly in the steps that choose LANDED; otherwise the thrust is
      between 500 and 900. This holds in every run, whichever packets fail. */
  lemma {:induction false} MotorsCutExactly(p: Pilot, inputs: seq<Input>, n: nat)
    requires Fresh(p) && n < |inputs|
    ensures var r := Log(p, inputs)[n];
      (r.thrust == 0.0 <==> r.chosen == LANDED) && (r.chosen != LANDED ==> 500.0 <= r.thrust <= 900.0)
  {
    InvOverRuns(p, inputs[..n]);
    LogPrefix(p, inputs, n);
  }

  /** The motors stop only after a timed landing: LANDED is chosen out of LANDING alone, more
      than a second after a step that measured less than 0.40 m, with LANDING kept and the
      fixed thrust commanded in all steps between. */
  lemma {:induction false} CutOnlyAfterTimedLanding(p: Pilot, inputs: seq<Input>, n: nat)
    requires Fresh(p) && n < |inputs|
    requires Log(p, inputs)[n].chosen == LANDED && Log(p, inputs)[n].before != LANDED
    ensures Log(p, inputs)[n].before == LANDING
    ensures var log, now := Log(p, inputs)[..n], inputs[n].now;
      exists m, start :: LandingSince(log, m, start) && now - start > LANDING_WITH_TIME_MAX_SECONDS
  {
    InvOverRuns(p, inputs[..n]);
    LogPrefix(p, inputs, n);
    var q := Run(p, inputs[..n]);
    var m :| LandingSince(Log(p, inputs[..n]), m, q.landingStart);
    assert LandingSince(Log(p, inputs)[..n], m, q.landingStart);
  }

  /** A take-off lasts less than five seconds from the command that started it, and is over
      at 1.1 m; motors that are off start only on that command. */
  lemma {:induction false} TakeoffBounded(p: Pilot, inputs: seq<Input>, n: nat)
    requires Fresh(p) && n < |inputs|
    ensures var r := Log(p, inputs)[n]; r.before == LANDED && r.chosen != LANDED ==> r.input.command == TAKEOFF
    ensures var r, log := Log(p, inputs)[n], Log(p, inputs)[..n];
      r.before == TAKINGOFF && r.chosen == TAKINGOFF ==>
        && r.input.height < TAKEOFF_FINAL_ALTITUDE
        && exists m, start :: TakeoffSince(log, m, start) && r.input.now - start < MAX_TAKINGOFF_TIME_S
  {
    InvOverRuns(p, inputs[..n]);
    LogPrefix(p, inputs, n);
    var q := Run(p, inputs[..n]);
    if q.mode == TAKINGOFF {
      var m :| TakeoffSince(Log(p, inputs[..n]), m, q.takingoffStart);
      assert TakeoffSince(Log(p, inputs)[..n], m, q.takingoffStart);
    }
  }

  lemma TakeoffSinceUnique(log: seq<Record>, m: nat, start: real, m': nat, start': real)
    requires TakeoffSince(log, m, start) && TakeoffSince(log, m', start')
    ensures m == m' && start == start'
  {}

  /** When a take-off goes on, in every run: a step that finds TAKINGOFF, started at `start`,
      keeps it exactly if LAND and HOVER are not commanded, the height is below 1.1 m and five
      seconds have not passed. It is over in HOVERING exactly if one of these fails, unless LAND
      is commanded, which is always obeyed. */
  lemma {:induction false} TakeoffExactly(p: Pilot, inputs: seq<Input>, n: nat, m: nat, start: real)
    requires Fresh(p) && n < |inputs| && Log(p, inputs)[n].before == TAKINGOFF
    requires TakeoffSince(Log(p, inputs)[..n], m, start)
    ensures var r := Log(p, inputs)[n];
      var goesOn := r.input.command != HOVER && r.input.height < 1.1 && r.input.now - start < 5.0;
      && (r.chosen == TAKINGOFF <==> r.input.command != LAND && goesOn)
      && (r.chosen == HOVERING <==> r.input.command != LAND && !goesOn)
      && (r.chosen == LANDING <==> r.input.command == LAND)
  {
    InvOverRuns(p, inputs[..n]);
    LogPrefix(p, inputs, n);
    var q, log := Run(p, inputs[..n]), Log(p, inputs)[..n];
    var k :| TakeoffSince(log, k, q.takingoffStart);
    TakeoffSinceUnique(log, m, start, k, q.takingoffStart);
  }

  predicate KeepsLanding(r: Record) { r.before == LANDING && r.chosen == LANDING }

  /** Step m measured a height below the limit, and LANDING was kept in it and ever since. */
  predicate LowSince(log: seq<Record>, m: nat) {
    && m < |log| && log[m].input.height < ALTITUDE_FOR_LANDING_WITH_TIME
    && forall k :: m <= k < |log| ==> KeepsLanding(log[k])
  }

  /** The first such step: the one that starts the landing timer. */
  predicate TimedSince(log: seq<Record>, m: nat) {
    m < |log| && LowSince(log, m) && forall j: nat :: j < m ==> !LowSince(log, j)
  }

  ghost predicate TimerAgrees(p: Pilot, log: seq<Record>) {
    && (p.withTime <==> exists m: nat :: LowSince(log, m))
    && (p.withTime ==> exists m: nat :: TimedSince(log, m) && p.landingStart == log[m].input.now)
  }

  lemma {:induction false} LowSinceNext(log: seq<Record>, r: Record, m: nat)
    ensures var starts := m == |log| && r.input.height < ALTITUDE_FOR_LANDING_WITH_TIME;
      LowSince(log + [r], m) <==> KeepsLanding(r) && (LowSince(log, m) || starts)
  {
    var log' := log + [r];
    assert forall k :: 0 <= k < |log| ==> log'[k] == log[k];
    assert log'[|log|] == r;
  }

  lemma {:induction false} TimerStep(p: Pilot, log: seq<Record>, i: Input)
    requires Sane(p) && TimerAgrees(p, log)
    ensures TimerAgrees(After(p, i), log + [RecordOf(p, i)])
  {
    hide LowSince;
    var r, q := RecordOf(p, i), After(p, i);
    var log' := log + [r];
    forall m: nat
      ensures LowSince(log', m) <==>
        KeepsLanding(r) && (LowSince(log, m) || (m == |log| && r.input.height < ALTITUDE_FOR_LANDING_WITH_TIME))
    {
      LowSinceNext(log, r, m);
    }
    if q.withTime {
      if p.withTime {
        var m: nat :| TimedSince(log, m) && p.landingStart == log[m].input.now;
        assert TimedSince(log', m);
      } else {
        assert TimedSince(log', |log|);
      }
    }
  }

  lemma {:induction false} TimerOverRuns(p: Pilot, inputs: seq<Input>)
    requires Fresh(p)
    ensures TimerAgrees(Run(p, inputs), Log(p, inputs))
    decreases |inputs|
  {
    if inputs != [] {
      hide TimerAgrees;
      var n := |inputs| - 1;
      TimerOverRuns(p, inputs[..n]);
      InvOverRuns(p, inputs[..n]);
      TimerStep(Run(p, inputs[..n]), Log(p, inputs[..n]), inputs[n]);
    }
  }

  /** When a landing goes on, in every run: a step that finds LANDING chooses TAKINGOFF exactly
      on that command, and otherwise LANDED exactly if more than a second has passed since the
      first low height of this landing. Whatever else is commanded, it is LANDING still. */
  lemma {:induction false} LandingExactly(p: Pilot, inputs: seq<Input>, n: nat)
    requires Fresh(p) && n < |inputs| && Log(p, inputs)[n].before == LANDING
    ensures var r, log := Log(p, inputs)[n], Log(p, inputs)[..n];
      var over := exists m: nat :: TimedSince(log, m) && r.input.now - log[m].input.now > 1.0;
      && (r.chosen == TAKINGOFF <==> r.input.command == TAKEOFF)
      && (r.chosen == LANDED <==> r.input.command != TAKEOFF && over)
      && (r.chosen == LANDING <==> r.input.command != TAKEOFF && !over)
  {
    TimerOverRuns(p, inputs[..n]);
    LogPrefix(p, inputs, n);
    var q, log := Run(p, inputs[..n]), Log(p, inputs)[..n];
    forall m: nat, m': nat | TimedSince(log, m) && TimedSince(log, m')
      ensures m == m'
    {
      assert !(m < m') && !(m' < m);
    }
    hide LowSince;
  }

  /** The next step finds the mode that was chosen, unless the packet did not go out. */
  lemma {:induction false} StoredIfSent(p: Pilot, inputs: seq<Input>, n: nat)
    requires n + 1 < |inputs|
    ensures var log := Log(p, inputs); log[n + 1].before == if inputs[n].sent then log[n].chosen else log[n].before
  {
    LogPrefix(p, inputs, n);
    LogPrefix(p, inputs, n + 1);
    assert inputs[..n + 1][..n] == inputs[..n];
  }

  /** Which commands the mode machine obeys, in every run: a landing vehicle may only finish
      or take off again, FLYING is entered from HOVERING alone, and LAND works wherever the
      vehicle is in the air. */
  lemma {:induction false} CommandsObeyed(p: Pilot, inputs: seq<Input>, n: nat)
    requires Fresh(p) && n < |inputs|
    ensures var r := Log(p, inputs)[n]; var b, c, cmd := r.before, r.chosen, r.input.command;
      && (Airborne(b) && cmd == LAND ==> c == LANDING || (b == LANDING && c == LANDED))
      && (c == LANDING && b != LANDING <==> cmd == LAND && (b == FLYING || b == HOVERING || b == TAKINGOFF))
      && (c == FLYING && b != FLYING <==> cmd == MOVE && b == HOVERING)
      && (c == TAKINGOFF && b != TAKINGOFF <==> cmd == TAKEOFF && (b == LANDED || b == LANDING))
      && (cmd == HOVER && (b == FLYING || b == TAKINGOFF) ==> c == HOVERING)
      && (c == HOVERING && b == FLYING ==> cmd == HOVER)
      && c != EMERGENCY && c != UNKNOWN
  {
    InvOverRuns(p, inputs[..n]);
    LogPrefix(p, inputs, n);
  }

  /** The other direction: a landing ends. If a landing vehicle measures less than 0.40 m and
      keeps going, with its packets sent and no take-off command, it stays in LANDING for a
      second and is LANDED at the first step after that. */
  lemma {:induction false} LandingCompletes(p: Pilot, inputs: seq<Input>)
    requires p.mode == LANDING && !p.withTime && inputs != [] && inputs[0].height < ALTITUDE_FOR_LANDING_WITH_TIME
    requires forall k :: 0 <= k < |inputs| ==> inputs[k].sent && inputs[k].command != TAKEOFF
    requires forall k :: 0 < k < |inputs| - 1 ==> inputs[k].now - inputs[0].now <= LANDING_WITH_TIME_MAX_SECONDS
    ensures var q, late := Run(p, inputs), inputs[|inputs| - 1].now - inputs[0].now > LANDING_WITH_TIME_MAX_SECONDS;
      && (late ==> q.mode == LANDED)
      && (!late ==> q.mode == LANDING && q.withTime && q.landingStart == inputs[0].now)
    decreases |inputs|
  {
    var n := |inputs| - 1;
    if n == 0 {
      assert inputs[..0] == [];
    } else {
      LandingCompletes(p, inputs[..n]);
      assert inputs[..n][n - 1] == inputs[n - 1];
    }
  }

  // ------------------------------------------------------------ climb speed

  datatype CommandData = CommandData(flyingMode: FlyingMode, phi: real, theta: real, gaz: real, yaw: real)

  /** Every field that is out of range goes to the nearer bound, the others stay. */
  function Clamped(c: CommandData): (d: CommandData)
    ensures InRange(d) && d.flyingMode == c.flyingMode
    ensures InRange(c) ==> d == c
  {
    c.(phi := Clamp(c.phi, -1.0, 1.0), theta := Clamp(c.theta, -1.0, 1.0),
       gaz := Clamp(c.gaz, -1.0, 1.0), yaw := Clamp(c.yaw, -1.0, 1.0))
  }

  predicate InRange(c: CommandData) {
    -1.0 <= c.phi <= 1.0 && -1.0 <= c.theta <= 1.0 && -1.0 <= c.gaz <= 1.0 && -1.0 <= c.yaw <= 1.0
  }

  /** The climb speed asked for in a mode. `easing` stands for the power of a cosine that
      slows a take-off down; it lies between 0 and 1. */
  function Reference(mode: DroneMode, gaz: real, height: real, easing: real): real {
    var g := match mode
      case FLYING => if height > MAX_ALTITUDE then -(MAX_ALTITUDE_DESCENDING_SPEED / MAX_ALLOWED_ALTITUDE_SPEED) else gaz
      case LANDED => 0.0
      case TAKINGOFF =>
        if height >= TAKEOFF_FINAL_ALTITUDE then 0.0
        else if height > ON_GROUND_ALTITUDE then TAKEOFF_SPEED * easing / MAX_ALLOWED_ALTITUDE_SPEED
        else TAKEOFF_SPEED / MAX_ALLOWED_ALTITUDE_SPEED
      case LANDING => -(LANDING_SPEED / MAX_ALLOWED_ALTITUDE_SPEED)
      case _ => gaz;
    g * MAX_ALLOWED_ALTITUDE_SPEED
  }

  /** A landing sinks at 0.4 m/s, a flight above 4.5 m at 0.2 m/s whatever is commanded, and
      no command asks for more than the allowed speed; only a take-off goes beyond it, never
      downward and up to its own speed. */
  lemma {:induction false} ReferenceBounds(mode: DroneMode, gaz: real, height: real, easing: real)
    requires -1.0 <= gaz <= 1.0 && 0.0 <= easing <= 1.0
    ensures var r := Reference(mode, gaz, height, easing);
      && (mode == LANDED ==> r == 0.0)
      && (mode == LANDING ==> r == -0.4)
      && (mode == HOVERING ==> r == gaz * MAX_ALLOWED_ALTITUDE_SPEED)
      && (mode == TAKINGOFF && height <= ON_GROUND_ALTITUDE ==> r == TAKEOFF_SPEED)
      && (mode == TAKINGOFF && height >= TAKEOFF_FINAL_ALTITUDE ==> r == 0.0)
      && (mode == TAKINGOFF && ON_GROUND_ALTITUDE < height < TAKEOFF_FINAL_ALTITUDE ==> r == TAKEOFF_SPEED * easing)
      && (mode == FLYING ==> r == if height > 4.5 then -0.2 else gaz * MAX_ALLOWED_ALTITUDE_SPEED)
      && (mode != TAKINGOFF ==> -MAX_ALLOWED_ALTITUDE_SPEED <= r <= MAX_ALLOWED_ALTITUDE_SPEED)
      && (mode == TAKINGOFF ==> 0.0 <= r <= TAKEOFF_SPEED)
      && (r > MAX_ALLOWED_ALTITUDE_SPEED ==> mode == TAKINGOFF && height < TAKEOFF_FINAL_ALTITUDE)
  {
    if mode == TAKINGOFF && ON_GROUND_ALTITUDE < height < TAKEOFF_FINAL_ALTITUDE {
      assert Reference(mode, gaz, height, easing) == TAKEOFF_SPEED * easing;
    }
  }

  const ALT_SPEED_MEASURE_SATURATION_FACTOR := 3.0
  const SUBSAMPLING_DIVIDER := 6
  const SMOOTHING := 0.846481724890614

  function Abs(x: real): real { if x < 0.0 then -x else x }

  /** The climb controller. Of six height samples it differentiates one, saturates the speed
      and smooths it; what reaches the PID stays within the saturation for good. */
  class AltSpeedController {
    const outputFilter: Filter
    const speedLimit: real
    var enabled: bool
    var started: bool
    var repeatCount: nat
    var lastAlt: real
    var lastSpeed: real
    var sampledAt: real
    var reference: real
    var feedback: real

    ghost predicate Valid()
      reads this, outputFilter, outputFilter.Repr()
    {
      && this !in outputFilter.Repr()
      && outputFilter.Valid() && outputFilter.trigger <= 0
      && outputFilter.num[..] == LowNum(SMOOTHING) && outputFilter.den[..] == PairDen(SMOOTHING)
      && (forall k :: 0 <= k < |outputFilter.xs| ==> -speedLimit <= outputFilter.xs[k] <= speedLimit)
      && -speedLimit <= lastSpeed <= speedLimit && -speedLimit <= feedback <= speedLimit
      && repeatCount < SUBSAMPLING_DIVIDER
    }

    constructor (maxAltSpeedCommand: real, now: real)
      ensures Valid() && fresh(outputFilter) && fresh(outputFilter.Repr())
      ensures speedLimit == Abs(maxAltSpeedCommand * ALT_SPEED_MEASURE_SATURATION_FACTOR) && !enabled && sampledAt == now
    {
      speedLimit := Abs(maxAltSpeedCommand * ALT_SPEED_MEASURE_SATURATION_FACTOR);
      enabled, started, repeatCount, lastAlt, lastSpeed := false, false, 0, 0.0, 0.0;
      sampledAt, reference, feedback := now, 0.0, 0.0;
      outputFilter := new Filter([0.153518275109386, 0.0], [1.0, -0.846481724890614]);
    }

    /** Any change of state resets the PID and forgets the last height. */
    method Enable(e: bool)
      requires Valid()
      modifies this`enabled, this`started
      ensures Valid() && enabled == e
      ensures started == (old(started) && old(enabled) == e)
    {
      if enabled != e {
        started := false;
      }
      enabled := e;
    }

    method SetReference(ref: real)
      modifies this`reference
      ensures reference == ref
    {
      reference := ref;
    }

    method GetOutput(pid: real) returns (command: real)
      ensures command == ClimbOutput(enabled, pid)
      ensures !enabled ==> command == 0.0
      ensures enabled && -0.2 <= pid <= 0.2 ==> command == pid + 0.7
      ensures enabled && pid > 0.2 ==> command == 0.9
      ensures enabled && pid < -0.2 ==> command == 0.5
    {
      if !enabled {
        return 0.0;
      }
      var value := pid;
      if value > COMMAND_UPPER_LIMIT {
        value := COMMAND_UPPER_LIMIT;
      } else if value < COMMAND_LOWER_LIMIT {
        value := COMMAND_LOWER_LIMIT;
      }
      return value + FEEDFORWARD;
    }

    /** The speed since the last sample, saturated against sensor peaks. */
    method SampleSpeed(curAlt: real, now: real)
      requires speedLimit >= 0.0 && now > sampledAt
      modifies this`started, this`lastAlt, this`lastSpeed, this`sampledAt
      ensures started && lastAlt == curAlt && sampledAt == now
      ensures lastSpeed == Clamp((curAlt - if old(started) then old(lastAlt) else curAlt) / (now - old(sampledAt)), -speedLimit, speedLimit)
    {
      if !started {
        started, lastAlt := true, curAlt;
      }
      lastSpeed := Clamp((curAlt - lastAlt) / (now - sampledAt), -speedLimit, speedLimit);
      sampledAt, lastAlt := now, curAlt;
    }

    method UpdateAltitude(curAlt: real, now: real)
      requires Valid() && now > sampledAt
      modifies this, outputFilter, outputFilter.sampleHistory, outputFilter.outputHistory
      ensures Valid() && outputFilter.Repr() == old(outputFilter.Repr())
      ensures enabled == old(enabled) && reference == old(reference)
      ensures !enabled ==> feedback == old(feedback) && repeatCount == old(repeatCount)
      ensures enabled ==> repeatCount == (old(repeatCount) + 1) % SUBSAMPLING_DIVIDER
      ensures !enabled || repeatCount != 0 ==>
        lastSpeed == old(lastSpeed) && sampledAt == old(sampledAt) && lastAlt == old(lastAlt) && started == old(started)
      ensures enabled && repeatCount == 0 ==> started && lastAlt == curAlt && sampledAt == now
      ensures enabled && repeatCount == 0 ==>
        lastSpeed == Clamp((curAlt - if old(started) then old(lastAlt) else curAlt) / (now - old(sampledAt)), -speedLimit, speedLimit)
      ensures enabled ==> outputFilter.xs == old(outputFilter.xs) + [lastSpeed]
      ensures enabled ==> |outputFilter.ys| == |outputFilter.xs| && feedback == outputFilter.ys[|outputFilter.ys| - 1]
    {
      hide Solves, Holds, LowNum, PairDen;
      if !enabled {
        return;
      }
      repeatCount := repeatCount + 1;
      if repeatCount >= SUBSAMPLING_DIVIDER {
        repeatCount := 0;
      }
      if repeatCount == 0 {
        SampleSpeed(curAlt, now);
      }
      feedback := outputFilter.Step(lastSpeed);
      SmoothedWithin(outputFilter.xs, outputFilter.ys, speedLimit);
    }
  }

  lemma {:induction false} SmoothedWithin(xs: Signal, ys: Signal, limit: real)
    requires Solves(LowNum(SMOOTHING), PairDen(SMOOTHING), xs, ys) && xs != []
    requires forall k :: 0 <= k < |xs| ==> -limit <= xs[k] <= limit
    ensures |ys| == |xs| && -limit <= ys[|ys| - 1] <= limit
  {
    assert -limit <= xs[0] <= limit;
    LowPassInHull(SMOOTHING, xs, ys, -limit, limit, |xs| - 1);
  }

  // ------------------------------------------------------------ the autopilot

  /** The macro KEEP_IN_RANGE. */
  method KeepInRange(a: real, lo: real, hi: real) returns (r: real)
    requires lo <= hi
    ensures r == Clamp(a, lo, hi)
  {
    r := a;
    if a < lo {
      r := lo;
    } else if a > hi {
      r := hi;
    }
  }

  class Autopilot {
    const altSpeedController: AltSpeedController
    var isOpen: bool
    var firstSample: bool
    var droneMode: DroneMode
    var landingWithTime: bool
    var landingStart: real
    var takingoffStart: real
    var lastCommand: CommandData
    var height: real
    var curThrust: real

    ghost function View(): Pilot
      reads this, altSpeedController
    {
      Pilot(droneMode, landingWithTime, landingStart, takingoffStart, altSpeedController.enabled)
    }

    /** Between open and the first sample the mode is unknown; from then on it is sane. */
    ghost predicate Valid()
      reads this, altSpeedController, altSpeedController.outputFilter, altSpeedController.outputFilter.Repr()
    {
      && altSpeedController.Valid()
      && InRange(lastCommand)
      && (isOpen ==> if firstSample then droneMode == UNKNOWN && !landingWithTime else Sane(View()))
    }

    constructor (now: real)
      ensures Valid() && !isOpen && fresh(altSpeedController)
      ensures fresh(altSpeedController.outputFilter) && fresh(altSpeedController.outputFilter.Repr())
    {
      altSpeedController := new AltSpeedController(MAX_ALLOWED_ALTITUDE_SPEED, now);
      isOpen, firstSample, droneMode, landingWithTime := false, true, UNKNOWN, false;
      landingStart, takingoffStart, height, curThrust := now, now, 0.0, 0.0;
      lastCommand := CommandData(INIT, 0.0, 0.0, 0.0, 0.0);
    }

    /** open, when the control board answers. */
    method Open()
      requires Valid()
      modifies this
      ensures Valid() && isOpen && firstSample && droneMode == UNKNOWN && !landingWithTime
      ensures lastCommand == CommandData(INIT, 0.0, 0.0, 0.0, 0.0)
    {
      firstSample, landingWithTime := true, false;
      droneMode := UNKNOWN;
      lastCommand := CommandData(INIT, 0.0, 0.0, 0.0, 0.0);
      isOpen := true;
    }

    method SetCommandData(cd: CommandData)
      requires Valid()
      modifies this`lastCommand
      ensures Valid() && InRange(lastCommand)
      ensures lastCommand == if isOpen then Clamped(cd) else old(lastCommand)
      ensures isOpen ==> lastCommand.flyingMode == cd.flyingMode
      ensures isOpen ==> lastCommand.phi == Clamp(cd.phi, -1.0, 1.0) && lastCommand.theta == Clamp(cd.theta, -1.0, 1.0)
      ensures isOpen ==> lastCommand.gaz == Clamp(cd.gaz, -1.0, 1.0) && lastCommand.yaw == Clamp(cd.yaw, -1.0, 1.0)
    {
      if !isOpen {
        return;
      }
      var phi := KeepInRange(cd.phi, -1.0, 1.0);
      var theta := KeepInRange(cd.theta, -1.0, 1.0);
      var gaz := KeepInRange(cd.gaz, -1.0, 1.0);
      var yaw := KeepInRange(cd.yaw, -1.0, 1.0);
      lastCommand := cd.(phi := phi, theta := theta, gaz := gaz, yaw := yaw);
    }

    /** controlMCUCallback, as far as height and mode go. The first sample decides between
        LANDED and HOVERING. */
    method GotSample(newHeight: real, now: real)
      requires Valid() && isOpen && now > altSpeedController.sampledAt
      modifies this`firstSample, this`droneMode, this`height, altSpeedController, altSpeedController.outputFilter,
        altSpeedController.outputFilter.sampleHistory, altSpeedController.outputFilter.outputHistory
      ensures Valid() && !firstSample && height == newHeight
      ensures old(firstSample) ==> View() == old(View()).(mode := FirstMode(newHeight)) && Fresh(View())
      ensures old(firstSample) ==> droneMode == if newHeight <= 0.40 then LANDED else HOVERING
      ensures !old(firstSample) ==> View() == old(View())
      ensures altSpeedController.enabled ==>
        && altSpeedController.repeatCount == (old(altSpeedController.repeatCount) + 1) % SUBSAMPLING_DIVIDER
        && (altSpeedController.repeatCount == 0 ==>
          altSpeedController.lastAlt == newHeight && altSpeedController.sampledAt == now)
    {
      hide FirstMode, Solves, Holds, Balanced, InRange, LowNum, PairDen, Clamp;
      altSpeedController.UpdateAltitude(newHeight, now);
      if droneMode == UNKNOWN {
        SetFirstMode(newHeight);
      }
      height, firstSample := newHeight, false;
    }

    method SetFirstMode(newHeight: real)
      modifies this`droneMode
      ensures droneMode == FirstMode(newHeight) && droneMode == if newHeight <= 0.40 then LANDED else HOVERING
    {
      if newHeight <= ALTITUDE_FOR_LANDING_WITH_TIME {
        droneMode := LANDED;
      } else {
        droneMode := HOVERING;
      }
    }

    /** The mode switch of run, on the local copy of the mode. */
    method ChangeMode(command: FlyingMode, now: real) returns (mode: DroneMode)
      modifies this`landingWithTime, this`landingStart, this`takingoffStart
      ensures View().(mode := mode) == Decide(old(View()), command, height, now)
    {
      mode := droneMode;
      match droneMode {
        case FLYING =>
          if command == HOVER {
            mode := HOVERING;
          } else if command == LAND {
            mode := LANDING;
          }
        case TAKINGOFF =>
          if height >= TAKEOFF_FINAL_ALTITUDE || now - takingoffStart >= MAX_TAKINGOFF_TIME_S {
            mode := HOVERING;
          }
          if command == LAND {
            mode := LANDING;
          } else if command == HOVER {
            mode := HOVERING;
          }
        case HOVERING =>
          if command == MOVE {
            mode := FLYING;
          } else if command == LAND {
            mode := LANDING;
          }
        case LANDED =>
          if command == TAKEOFF {
            mode := TAKINGOFF;
            takingoffStart := now;
          }
        case LANDING =>
          if !landingWithTime {
            if height < ALTITUDE_FOR_LANDING_WITH_TIME {
              landingWithTime, landingStart := true, now;
            }
          } else if now - landingStart > LANDING_WITH_TIME_MAX_SECONDS {
            mode, landingWithTime := LANDED, false;
          }
          if command == TAKEOFF {
            mode, takingoffStart, landingWithTime := TAKINGOFF, now, false;
          }
        case _ =>
      }
    }

    /** The mode commands of run: the climb controller is switched and gets its reference. */
    method CommandClimb(mode: DroneMode, gaz: real, easing: real)
      requires altSpeedController.Valid()
      modifies altSpeedController`enabled, altSpeedController`started, altSpeedController`reference
      ensures altSpeedController.Valid()
      ensures altSpeedController.started
        == (old(altSpeedController.started) && old(altSpeedController.enabled) == altSpeedController.enabled)
      ensures altSpeedController.enabled == Switch(old(View()).(mode := mode)).enabled
      ensures altSpeedController.reference == Reference(mode, gaz, height, easing)
    {
      var g := gaz;
      match mode {
        case FLYING =>
          altSpeedController.Enable(true);
          if height > MAX_ALTITUDE {
            g := -(MAX_ALTITUDE_DESCENDING_SPEED / MAX_ALLOWED_ALTITUDE_SPEED);
          }
        case LANDED =>
          altSpeedController.Enable(false);
          g := 0.0;
        case TAKINGOFF =>
          altSpeedController.Enable(true);
          if height < TAKEOFF_FINAL_ALTITUDE {
            if height > ON_GROUND_ALTITUDE {
              g := TAKEOFF_SPEED * easing / MAX_ALLOWED_ALTITUDE_SPEED;
            } else {
              g := TAKEOFF_SPEED / MAX_ALLOWED_ALTITUDE_SPEED;
            }
          } else {
            g := 0.0;
          }
        case HOVERING =>
          altSpeedController.Enable(true);
        case LANDING =>
          altSpeedController.Enable(true);
          g := -(LANDING_SPEED / MAX_ALLOWED_ALTITUDE_SPEED);
        case _ =>
      }
      altSpeedController.SetReference(g * MAX_ALLOWED_ALTITUDE_SPEED);
    }

    method ComputeThrust(pid: real)
      modifies this`curThrust
      ensures curThrust == Thrust(View(), pid)
      ensures landingWithTime ==> curThrust == 500.0
      ensures !landingWithTime && !altSpeedController.enabled ==> curThrust == 0.0
      ensures !landingWithTime && altSpeedController.enabled && -0.2 <= pid <= 0.2 ==> curThrust == 700.0 + pid * 1000.0
      ensures !landingWithTime && altSpeedController.enabled && pid > 0.2 ==> curThrust == 900.0
      ensures !landingWithTime && altSpeedController.enabled && pid < -0.2 ==> curThrust == 500.0
    {
      if !landingWithTime {
        var command := altSpeedController.GetOutput(pid);
        curThrust := command * 1000.0;
      } else {
        curThrust := LANDING_WITH_TIME_FIXED_THRUST * 1000.0;
      }
    }

    /** What a run with the present command and sample goes by. */
    ghost function CurrentInput(now: real, pid: real, sent: bool): Input
      reads this
    {
      Input(lastCommand.flyingMode, height, now, pid, sent)
    }

    /** run. A packet that is not sent raises an exception before the mode is stored; the
        result says whether it went out. */
    method RunOnce(now: real, pid: real, easing: real, sent: bool) returns (ok: bool)
      requires Valid()
      modifies this`droneMode, this`landingWithTime, this`landingStart, this`takingoffStart, this`curThrust,
        altSpeedController`enabled, altSpeedController`started, altSpeedController`reference
      ensures Valid()
      ensures !isOpen || firstSample ==> ok && View() == old(View()) && curThrust == old(curThrust)
      ensures isOpen && !firstSample ==> ok == sent && View() == After(old(View()), CurrentInput(now, pid, sent))
      ensures var r := RecordOf(old(View()), CurrentInput(now, pid, sent));
        isOpen && !firstSample ==>
          curThrust == r.thrust && altSpeedController.reference == Reference(r.chosen, lastCommand.gaz, height, easing)
    {
      hide Reference, Decide, Sane, ClimbOutput, InRange;
      if !isOpen || firstSample {
        return true;
      }
      StepKeepsSane(View(), CurrentInput(now, pid, sent));
      var mode := ChangeMode(lastCommand.flyingMode, now);
      CommandClimb(mode, lastCommand.gaz, easing);
      ComputeThrust(pid);
      if !sent {
        return false;
      }
      droneMode := mode;
      return true;
    }
  }
}
