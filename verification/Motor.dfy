/** The motion profile, the start and stop commands and the 1 ms kinematic tick, with rational
    frequencies. */
module Motor {
  import opened Words

  const MIN_MICROSTEPS := 800
  const DEFAULT_MICROSTEPS: u16 := 5000
  const GEAR_RATIO: real := 3.0
  const MIN_START_RPM: real := 2.0
  const MAX_RPM: real := 200.0
  const SECONDS_PER_MINUTE: real := 60.0
  const MS_PER_SECOND: real := 1000.0

  // ---------------------------------------------------------------------------
  // The profile
  // ---------------------------------------------------------------------------

  datatype Shaft = Shaft(microsteps: u16, targetRPM: real, startFreq: real, targetFreq: real, stepPerMs: real)

  const DEFAULT_SHAFT := Shaft(DEFAULT_MICROSTEPS, 0.0, 0.0, 0.0, 0.0)

  function Frequency(rpm: real, microsteps: u16): real {
    Product((rpm * GEAR_RATIO) / SECONDS_PER_MINUTE, microsteps as real)
  }

  function Product(a: real, b: real): real {
    a * b
  }

  function Quotient(a: real, b: real): real
    requires b != 0.0
  {
    a / b
  }

  /** The ramp time in milliseconds. */
  function RampMs(accelTimeSec: real): (t: real)
    ensures t >= 1.0
  {
    (if accelTimeSec <= 0.001 then 0.001 else accelTimeSec) * MS_PER_SECOND
  }

  function ClampedRPM(rpm: real): real {
    if rpm <= MIN_START_RPM then MIN_START_RPM + 0.1 else rpm
  }

  function Profile(s: Shaft, rpm: real, accelTimeSec: real, microsteps: u16): Shaft {
    var m := if microsteps >= MIN_MICROSTEPS then microsteps else s.microsteps;
    var target := if 0.0 < ClampedRPM(rpm) < MAX_RPM then ClampedRPM(rpm) else s.targetRPM;
    var f0, f1 := Frequency(MIN_START_RPM, m), Frequency(target, m);
    Shaft(m, target, f0, f1, Quotient(f1 - f0, RampMs(accelTimeSec)))
  }

  /** Frequencies that can be ramped in `t` milliseconds. */
  predicate Ramp(s: Shaft, t: real) {
    && 0.0 < s.startFreq < s.targetFreq && 0.0 < s.stepPerMs && 1.0 <= t
    && Product(t, s.stepPerMs) == s.targetFreq - s.startFreq
  }

  /** What every profile keeps of the settings: enough microsteps, and no target speed or one in range. */
  predicate Settings(s: Shaft) {
    s.microsteps >= MIN_MICROSTEPS && (s.targetRPM == 0.0 || MIN_START_RPM < s.targetRPM < MAX_RPM)
  }

  lemma MulPositive(a: real, b: real)
    requires 0.0 < a && 0.0 < b
    ensures 0.0 < a * b
  {
  }

  lemma OneMore(a: real, c: real)
    ensures Product(a + 1.0, c) == Product(a, c) + c
  {
  }

  lemma ProductOrder(a: real, b: real, c: real)
    requires 0.0 < c
    ensures Product(a, c) >= Product(b, c) <==> a >= b
  {
    assert (a - b) * c == a * c - b * c;
    if a > b {
      MulPositive(a - b, c);
    } else if a < b {
      MulPositive(b - a, c);
    }
  }

  lemma FrequencyGrows(rpm: real, microsteps: u16)
    requires microsteps >= MIN_MICROSTEPS
    ensures MIN_START_RPM < rpm ==> 80.0 <= Frequency(MIN_START_RPM, microsteps) < Frequency(rpm, microsteps)
    ensures Frequency(0.0, microsteps) == 0.0 < 80.0 <= Frequency(MIN_START_RPM, microsteps)
  {
    var m := microsteps as real;
    assert Frequency(MIN_START_RPM, microsteps) == 0.1 * m;
    if MIN_START_RPM < rpm {
      MulPositive((rpm - MIN_START_RPM) * GEAR_RATIO / SECONDS_PER_MINUTE, m);
    }
  }

  lemma DivTimes(a: real, b: real)
    requires 0.0 < b
    ensures Product(b, Quotient(a, b)) == a
    ensures (0.0 < a ==> 0.0 < Quotient(a, b)) && (a < 0.0 ==> Quotient(a, b) < 0.0)
  {
  }

  /** A profile can be ramped exactly if the requested speed is below 200 RPM or an earlier one was; a
      first request of 200 RPM or more leaves a target of 0 behind. */
  lemma ProfileRampsIff(s: Shaft, rpm: real, accelTimeSec: real, microsteps: u16)
    requires Settings(s)
    ensures var p := Profile(s, rpm, accelTimeSec, microsteps);
            && Settings(p) && 80.0 <= p.startFreq
            && (rpm < MAX_RPM || s.targetRPM != 0.0 <==> p.targetRPM != 0.0)
            && (p.targetRPM != 0.0 <==> Ramp(p, RampMs(accelTimeSec)))
            && (p.targetRPM == 0.0 ==> p.targetFreq == 0.0 && p.stepPerMs < 0.0)
  {
    var p := Profile(s, rpm, accelTimeSec, microsteps);
    FrequencyGrows(p.targetRPM, p.microsteps);
    DivTimes(p.targetFreq - p.startFreq, RampMs(accelTimeSec));
  }

  // ---------------------------------------------------------------------------
  // The drive
  // ---------------------------------------------------------------------------

  datatype State = Stopped | Accelerating | Cruising | Decelerating

  /** The output pins and the pulse timer. */
  datatype Outputs = Outputs(dir: u8, enabled: bool, pulsing: bool, freq: nat)

  datatype Drive = Drive(shaft: Shaft, state: State, freq: real, out: Outputs)

  /** The cast to uint32_t, in the range of the frequencies. */
  function Hertz(f: real): nat {
    if f < 0.0 then 0 else f.Floor
  }

  /** HAL_Motor_SetFrequency ignores 0. */
  function SetFrequency(out: Outputs, f: real): Outputs {
    if Hertz(f) == 0 then out else out.(freq := Hertz(f))
  }

  function Tick(d: Drive): Drive {
    match d.state
    case Accelerating =>
      var f := d.freq + d.shaft.stepPerMs;
      if f >= d.shaft.targetFreq
      then d.(freq := d.shaft.targetFreq, state := Cruising, out := SetFrequency(d.out, d.shaft.targetFreq))
      else d.(freq := f, out := SetFrequency(d.out, f))
    case Decelerating =>
      var f := d.freq - d.shaft.stepPerMs;
      if f <= d.shaft.startFreq
      then d.(freq := f, state := Stopped, out := d.out.(pulsing := false, enabled := false))
      else d.(freq := f, out := SetFrequency(d.out, f))
    case _ => d
  }

  function Ticks(d: Drive, n: nat): Drive {
    if n == 0 then d else Tick(Ticks(d, n - 1))
  }

  function Stop(d: Drive): Drive {
    if d.state.Accelerating? || d.state.Cruising? then d.(state := Decelerating) else d
  }

  function Start(d: Drive, direction: u8): Drive {
    if d.state.Stopped? || d.state.Decelerating? then
      var out := SetFrequency(d.out.(dir := direction, enabled := true), d.shaft.startFreq);
      d.(state := Accelerating, freq := d.shaft.startFreq, out := out.(pulsing := true))
    else d
  }

  // ---------------------------------------------------------------------------
  // Ramp timing
  // ---------------------------------------------------------------------------

  /** The least number of whole milliseconds that is not less than `t`. */
  function Ceil(t: real): int {
    if t.Floor as real == t then t.Floor else t.Floor + 1
  }

  lemma CeilIsLeast(t: real, n: int)
    ensures t <= n as real <==> Ceil(t) <= n
  {
    assert t.Floor as real <= t < t.Floor as real + 1.0;
    assert (t.Floor + 1) as real == t.Floor as real + 1.0;
    if Ceil(t) <= n {
      assert Ceil(t) as real <= n as real;
    } else {
      assert (Ceil(t) - 1) as real == Ceil(t) as real - 1.0;
      assert n as real <= (Ceil(t) - 1) as real;
    }
  }

  /** `n` steps one after another. */
  function Steps(step: real, n: nat): real {
    if n == 0 then 0.0 else Steps(step, n - 1) + step
  }

  lemma {:induction false} StepsIsProduct(step: real, n: nat)
    ensures Steps(step, n) == Product(n as real, step)
  {
    if n > 0 {
      StepsIsProduct(step, n - 1);
      var r := (n - 1) as real;
      assert n as real == r + 1.0;
      OneMore(r, step);
    }
  }

  lemma {:induction false} StepsGrow(step: real, a: nat, b: nat)
    requires 0.0 < step && a < b
    ensures Steps(step, a) + step <= Steps(step, b)
  {
    if a < b - 1 {
      StepsGrow(step, a, b - 1);
    }
  }

  /** `n` steps cover the ramp exactly from the `t`-th millisecond on. */
  lemma StepsCover(s: Shaft, t: real, n: nat)
    requires Ramp(s, t)
    ensures Steps(s.stepPerMs, n) >= s.targetFreq - s.startFreq <==> n >= Ceil(t)
  {
    StepsIsProduct(s.stepPerMs, n);
    CeilIsLeast(t, n);
    ProductOrder(n as real, t, s.stepPerMs);
  }

  /** While it lasts the ramp up has the frequency start + k steps. */
  lemma {:induction false} RampUp(d: Drive, t: real, k: nat)
    requires Ramp(d.shaft, t) && d.state.Accelerating? && d.freq == d.shaft.startFreq && k < Ceil(t)
    ensures var e := Ticks(d, k);
            e.state.Accelerating? && e.shaft == d.shaft && e.freq == d.shaft.startFreq + Steps(d.shaft.stepPerMs, k)
  {
    if k > 0 {
      RampUp(d, t, k - 1);
      StepsCover(d.shaft, t, k);
    }
  }

  /** Acceleration reaches the target after exactly the ramp time, rounded up to whole ticks. */
  lemma {:induction false} AccelerationTime(d: Drive, t: real, n: nat)
    requires Ramp(d.shaft, t) && d.state.Accelerating? && d.freq == d.shaft.startFreq
    ensures Ticks(d, n).state == if n < Ceil(t) then Accelerating else Cruising
    ensures n >= Ceil(t) ==> Ticks(d, n).freq == d.shaft.targetFreq && Ticks(d, n).shaft == d.shaft
    decreases n
  {
    if n < Ceil(t) {
      RampUp(d, t, n);
    } else {
      AccelerationTime(d, t, n - 1);
      if n == Ceil(t) {
        RampUp(d, t, n - 1);
        StepsCover(d.shaft, t, n);
      }
    }
  }

  /** Slowing down takes `m` ticks when the `m`-th step is the first to get back to the start. */
  lemma {:induction false} RampDown(d: Drive, above: real, m: nat, n: nat)
    requires 0.0 < d.shaft.stepPerMs && d.state.Decelerating? && d.freq == d.shaft.startFreq + above
    requires m >= 1 && above <= Steps(d.shaft.stepPerMs, m)
    requires m > 1 ==> Steps(d.shaft.stepPerMs, m - 1) < above
    ensures Ticks(d, n).shaft == d.shaft
    ensures Ticks(d, n).state == if n < m then Decelerating else Stopped
    ensures n < m ==> Ticks(d, n).freq == d.shaft.startFreq + above - Steps(d.shaft.stepPerMs, n)
    ensures n >= m ==> !Ticks(d, n).out.enabled && !Ticks(d, n).out.pulsing
  {
    if n > 0 {
      RampDown(d, above, m, n - 1);
      if n < m - 1 {
        StepsGrow(d.shaft.stepPerMs, n, m - 1);
      }
    }
  }

  /** Stopping from the target speed takes exactly the ramp time, rounded up to whole ticks. */
  lemma StopTimeFromCruise(d: Drive, t: real, n: nat)
    requires Ramp(d.shaft, t) && d.state.Cruising? && d.freq == d.shaft.targetFreq
    ensures Ticks(Stop(d), n).state == if n < Ceil(t) then Decelerating else Stopped
    ensures n >= Ceil(t) ==> !Ticks(Stop(d), n).out.enabled && !Ticks(Stop(d), n).out.pulsing
  {
    CeilIsLeast(t, 0);
    StepsCover(d.shaft, t, Ceil(t));
    StepsCover(d.shaft, t, Ceil(t) - 1);
    RampDown(Stop(d), d.shaft.targetFreq - d.shaft.startFreq, Ceil(t), n);
  }

  /** Stopping after `k` ticks of acceleration takes as many ticks again, and at least one. */
  lemma StopTimeFromRamp(d: Drive, t: real, k: nat, n: nat)
    requires Ramp(d.shaft, t) && d.state.Accelerating? && d.freq == d.shaft.startFreq && k < Ceil(t)
    ensures Ticks(Stop(Ticks(d, k)), n).state == if n < (if k == 0 then 1 else k) then Decelerating else Stopped
  {
    RampUp(d, t, k);
    RampDown(Stop(Ticks(d, k)), Steps(d.shaft.stepPerMs, k), if k == 0 then 1 else k, n);
  }

  /** A tick moves the frequency by at most one step, and keeps it on the ramp until the drive stops. */
  lemma TickIsSmooth(d: Drive, t: real)
    requires Ramp(d.shaft, t) && (!d.state.Stopped? ==> d.shaft.startFreq <= d.freq <= d.shaft.targetFreq)
    ensures var e := Tick(d);
            && d.freq - d.shaft.stepPerMs <= e.freq <= d.freq + d.shaft.stepPerMs
            && (!e.state.Stopped? ==> d.shaft.startFreq <= e.freq <= d.shaft.targetFreq)
  {
  }

  // ---------------------------------------------------------------------------
  // The module's variables
  // ---------------------------------------------------------------------------

  class Controller {
    var shaft: Shaft
    var currentState: State
    var currentFreq: real
    var out: Outputs

    function Now(): Drive
      reads this
    {
      Drive(shaft, currentState, currentFreq, out)
    }

    /** App_Motor_Init */
    constructor ()
      ensures Now() == Drive(DEFAULT_SHAFT, Stopped, 0.0, Outputs(0, false, false, 0))
    {
      shaft, currentState, currentFreq, out := DEFAULT_SHAFT, Stopped, 0.0, Outputs(0, false, false, 0);
    }

    /** App_Motor_CalculateProfile */
    method CalculateProfile(targetRPM: real, accelTimeSec: real, microsteps: u16)
      modifies this`shaft
      ensures shaft == Profile(old(shaft), targetRPM, accelTimeSec, microsteps)
    {
      var rpm, time := targetRPM, accelTimeSec;
      if microsteps >= MIN_MICROSTEPS {
        shaft := shaft.(microsteps := microsteps);
      }
      if rpm <= MIN_START_RPM {
        rpm := MIN_START_RPM + 0.1;
      }
      if time <= 0.001 {
        time := 0.001;
      }
      if rpm > 0.0 && rpm < MAX_RPM {
        shaft := shaft.(targetRPM := rpm);
      }
      var startRPS := (MIN_START_RPM * GEAR_RATIO) / SECONDS_PER_MINUTE;
      shaft := shaft.(startFreq := Product(startRPS, shaft.microsteps as real));
      var targetRPS := (shaft.targetRPM * GEAR_RATIO) / SECONDS_PER_MINUTE;
      shaft := shaft.(targetFreq := Product(targetRPS, shaft.microsteps as real));
      shaft := shaft.(stepPerMs := Quotient(shaft.targetFreq - shaft.startFreq, time * MS_PER_SECOND));
    }

    /** HAL_Motor_SetFrequency after the cast of its argument */
    method Output(f: real)
      modifies this`out
      ensures out == SetFrequency(old(out), f)
    {
      var hz := Hertz(f);
      if hz == 0 {
        return;
      }
      out := out.(freq := hz);
    }

    /** App_Motor_Start with nothing in between */
    method StartMotor(direction: u8)
      modifies this
      ensures Now() == Start(old(Now()), direction)
    {
      if currentState == Stopped || currentState == Decelerating {
        out := out.(dir := direction);
        out := out.(enabled := true);
        currentFreq := shaft.startFreq;
        currentState := Accelerating;
        Output(shaft.startFreq);
        out := out.(pulsing := true);
      }
    }

    /** App_Motor_Stop */
    method StopMotor()
      modifies this`currentState
      ensures Now() == Stop(old(Now()))
    {
      if currentState == Accelerating || currentState == Cruising {
        currentState := Decelerating;
      }
    }

    /** App_Motor_KinematicTick_1ms */
    method KinematicTick()
      modifies this`currentState, this`currentFreq, this`out
      ensures Now() == Tick(old(Now()))
    {
      if currentState == Accelerating {
        currentFreq := currentFreq + shaft.stepPerMs;
        if currentFreq >= shaft.targetFreq {
          currentFreq := shaft.targetFreq;
          currentState := Cruising;
        }
        Output(currentFreq);
      } else if currentState == Decelerating {
        currentFreq := currentFreq - shaft.stepPerMs;
        if currentFreq <= shaft.startFreq {
          out := out.(pulsing := false);
          out := out.(enabled := false);
          currentState := Stopped;
        } else {
          Output(currentFreq);
        }
      }
    }
  }
}
