/** The main loop's motor control, step by step, with the 1 ms interrupt between any two steps. */
module MotorLoop {
  import opened Words
  import opened Motor

  /** What an iteration of the loop finds: the debounced switch and the Modbus registers and commands. */
  datatype Input = Input(switchOn: bool, start: bool, stop: bool, rpm: real, accelTimeSec: real, microsteps: u16,
                         dir: u8)

  /** Where the main loop stands; `seen` is its copy of the motor state. */
  datatype Pc =
    | Top
    | Reading
    | Arbitrating(seen: State)
    | Deciding(seen: State)
    | Calculating
    | Starting
    | SettingDirection
    | Enabling
    | SettingFreq
    | SettingState
    | SettingRate
    | StartingTimer
    | Stopping
    | SettingStop

  datatype Sys = Sys(drive: Drive, pc: Pc, request: bool, lastSwitch: bool, input: Input)

  datatype Action = Main(input: Input) | Interrupt

  /** The request that an iteration acts on. */
  function Arbitrate(request: bool, lastSwitch: bool, i: Input): bool {
    if i.stop then false
    else if i.start then true
    else if i.switchOn != lastSwitch then i.switchOn
    else request
  }

  function MainStep(s: Sys, i: Input): Sys {
    var d := s.drive;
    match s.pc
    case Top => s.(input := i, pc := Reading)
    case Reading => s.(pc := Arbitrating(d.state))
    case Arbitrating(seen) =>
      s.(request := Arbitrate(s.request, s.lastSwitch, s.input), lastSwitch := s.input.switchOn, pc := Deciding(seen))
    case Deciding(seen) =>
      (match seen
       case Stopped => s.(pc := if s.request then Calculating else Top)
       case Decelerating => s.(pc := Top)
       case _ => s.(pc := if s.request then Top else Stopping))
    case Calculating =>
      s.(drive := d.(shaft := Profile(d.shaft, s.input.rpm, s.input.accelTimeSec, s.input.microsteps)), pc := Starting)
    case Starting => s.(pc := if d.state.Stopped? || d.state.Decelerating? then SettingDirection else Top)
    case SettingDirection => s.(drive := d.(out := d.out.(dir := s.input.dir)), pc := Enabling)
    case Enabling => s.(drive := d.(out := d.out.(enabled := true)), pc := SettingFreq)
    case SettingFreq => s.(drive := d.(freq := d.shaft.startFreq), pc := SettingState)
    case SettingState => s.(drive := d.(state := Accelerating), pc := SettingRate)
    case SettingRate => s.(drive := d.(out := SetFrequency(d.out, d.shaft.startFreq)), pc := StartingTimer)
    case StartingTimer => s.(drive := d.(out := d.out.(pulsing := true)), pc := Top)
    case Stopping => s.(pc := if d.state.Accelerating? || d.state.Cruising? then SettingStop else Top)
    case SettingStop => s.(drive := d.(state := Decelerating), pc := Top)
  }

  function Step(s: Sys, a: Action): Sys {
    match a
    case Main(i) => MainStep(s, i)
    case Interrupt => s.(drive := Tick(s.drive))
  }

  function Run(s: Sys, actions: seq<Action>, n: nat): Sys
    requires n <= |actions|
  {
    if n == 0 then s else Step(Run(s, actions, n - 1), actions[n - 1])
  }

  function Initial(lastSwitch: bool, i: Input): Sys {
    Sys(Drive(DEFAULT_SHAFT, Stopped, 0.0, Outputs(0, false, false, 0)), Top, false, lastSwitch, i)
  }

  lemma Next(s: Sys, actions: seq<Action>, n: nat)
    requires n < |actions|
    ensures Run(s, actions, n + 1) == Step(Run(s, actions, n), actions[n])
  {
  }

  // ---------------------------------------------------------------------------
  // An iteration with nothing in between
  // ---------------------------------------------------------------------------

  function Iteration(d: Drive, request: bool, i: Input): Drive {
    match d.state
    case Stopped =>
      if request then Start(d.(shaft := Profile(d.shaft, i.rpm, i.accelTimeSec, i.microsteps)), i.dir) else d
    case Decelerating => d
    case _ => if request then d else Stop(d)
  }

  /** sysMotorRunRequest, lastSwitchState and the pending flags of the main loop. */
  class Arbiter {
    var sysMotorRunRequest: bool
    var lastSwitchState: bool
    var pendingMotorStart: bool
    var pendingMotorStop: bool

    /** The motor part of one iteration of the infinite loop. */
    method Iterate(motor: Controller, i: Input)
      requires pendingMotorStart == i.start && pendingMotorStop == i.stop
      modifies this, motor
      ensures !pendingMotorStart && !pendingMotorStop && lastSwitchState == i.switchOn
      ensures sysMotorRunRequest == Arbitrate(old(sysMotorRunRequest), old(lastSwitchState), i)
      ensures i.stop ==> !sysMotorRunRequest && !Moving(motor.currentState)
      ensures i.start && !i.stop ==> sysMotorRunRequest
      ensures !i.start && !i.stop ==>
                sysMotorRunRequest
                == if i.switchOn != old(lastSwitchState) then i.switchOn else old(sysMotorRunRequest)
      ensures old(motor.currentState).Stopped? && sysMotorRunRequest ==>
                motor.currentState.Accelerating? && motor.out.enabled && motor.out.pulsing && motor.out.dir == i.dir
      ensures motor.Now() == Iteration(old(motor.Now()), sysMotorRunRequest, i)
    {
      var motorState := motor.currentState;
      if i.switchOn != lastSwitchState {
        lastSwitchState := i.switchOn;
        sysMotorRunRequest := i.switchOn;
      }
      if pendingMotorStart {
        pendingMotorStart := false;
        sysMotorRunRequest := true;
      }
      if pendingMotorStop {
        pendingMotorStop := false;
        sysMotorRunRequest := false;
      }
      match motorState {
        case Stopped =>
          if sysMotorRunRequest {
            motor.CalculateProfile(i.rpm, i.accelTimeSec, i.microsteps);
            motor.StartMotor(i.dir);
          }
        case Decelerating =>
        case Accelerating =>
          if !sysMotorRunRequest {
            motor.StopMotor();
          }
        case Cruising =>
          if !sysMotorRunRequest {
            motor.StopMotor();
          }
      }
    }
  }

  /** `n` steps of the loop with no interrupt. */
  function MainSteps(s: Sys, i: Input, n: nat): Sys
    decreases n
  {
    if n == 0 then s else MainSteps(MainStep(s, i), i, n - 1)
  }

  lemma {:induction false} MainStepsAppend(s: Sys, i: Input, a: nat, b: nat)
    ensures MainSteps(s, i, a + b) == MainSteps(MainSteps(s, i, a), i, b)
    decreases a
  {
    if a > 0 {
      MainStepsAppend(MainStep(s, i), i, a - 1, b);
    }
  }

  lemma TwoSteps(s: Sys, i: Input)
    ensures MainSteps(s, i, 2) == MainStep(MainStep(s, i), i)
  {
    assert MainSteps(MainStep(s, i), i, 1) == MainSteps(MainStep(MainStep(s, i), i), i, 0);
  }

  /** The seven steps of the start command are the start command. */
  lemma StartStepsAreStart(s: Sys, i: Input)
    requires s.pc.Starting? && (s.drive.state.Stopped? || s.drive.state.Decelerating?)
    ensures MainSteps(s, i, 7) == s.(drive := Start(s.drive, s.input.dir), pc := Top)
  {
    TwoSteps(s, i);
    var d := s.drive;
    var s2 := s.(pc := Enabling, drive := d.(out := d.out.(dir := s.input.dir)));
    assert MainSteps(s, i, 2) == s2;
    TwoSteps(s2, i);
    var s4 := s.(pc := SettingState,
                 drive := d.(freq := d.shaft.startFreq, out := d.out.(dir := s.input.dir, enabled := true)));
    assert MainSteps(s2, i, 2) == s4;
    TwoSteps(s4, i);
    var s6 := MainSteps(s4, i, 2);
    assert s6.pc.StartingTimer?;
    assert MainSteps(s6, i, 1) == MainSteps(MainStep(s6, i), i, 0);
    MainStepsAppend(s4, i, 2, 1);
    MainStepsAppend(s2, i, 2, 3);
    MainStepsAppend(s, i, 2, 5);
  }

  /** How many steps an iteration takes after its input has come. */
  function Length(seen: State, request: bool): nat {
    if seen.Stopped? && request then 11 else if Moving(seen) && !request then 5 else 3
  }

  lemma ThreeSteps(s: Sys, i: Input)
    requires s.pc.Reading?
    ensures var request := Arbitrate(s.request, s.lastSwitch, s.input);
            MainSteps(s, i, 3)
            == MainStep(Sys(s.drive, Deciding(s.drive.state), request, s.input.switchOn, s.input), i)
  {
    TwoSteps(s, i);
    var s2 := MainSteps(s, i, 2);
    assert MainSteps(s2, i, 1) == MainSteps(MainStep(s2, i), i, 0);
    MainStepsAppend(s, i, 2, 1);
  }

  /** The steps of an uninterrupted iteration come to what the iteration is meant to do. */
  lemma StepsAreIteration(s: Sys, i: Input)
    requires s.pc.Reading?
    ensures var request := Arbitrate(s.request, s.lastSwitch, s.input);
            MainSteps(s, i, Length(s.drive.state, request))
            == Sys(Iteration(s.drive, request, s.input), Top, request, s.input.switchOn, s.input)
  {
    var request := Arbitrate(s.request, s.lastSwitch, s.input);
    ThreeSteps(s, i);
    var s3 := MainSteps(s, i, 3);
    if s.drive.state.Stopped? && request {
      var s4 := MainStep(s3, i);
      StartStepsAreStart(s4, i);
      assert MainSteps(s3, i, 8) == MainSteps(s4, i, 7);
      MainStepsAppend(s, i, 3, 8);
    } else if Moving(s.drive.state) && !request {
      TwoSteps(s3, i);
      MainStepsAppend(s, i, 3, 2);
    }
  }

  // ---------------------------------------------------------------------------
  // Invariant
  // ---------------------------------------------------------------------------

  predicate Moving(st: State) {
    st.Accelerating? || st.Cruising?
  }

  /** A profile that was calculated: it ramps exactly if it has a target speed. */
  predicate Calculated(p: Shaft) {
    && 80.0 <= p.startFreq
    && (p.targetRPM != 0.0 ==> p.startFreq < p.targetFreq && 0.0 < p.stepPerMs)
    && (p.targetRPM == 0.0 ==> p.targetFreq == 0.0 && p.stepPerMs < 0.0)
  }

  /** What the place in the loop says about the motor and its outputs. */
  predicate PlaceOk(s: Sys) {
    var d := s.drive;
    match s.pc
    case Top => !s.request ==> !Moving(d.state)
    case Reading => !s.request ==> !Moving(d.state)
    case Arbitrating(seen) => Moving(seen) == Moving(d.state) && (seen.Stopped? ==> d.state.Stopped?)
    case Deciding(seen) => Moving(seen) == Moving(d.state) && (seen.Stopped? ==> d.state.Stopped?)
    case Calculating => d.state.Stopped? && s.request
    case Starting => d.state.Stopped? && s.request && Calculated(d.shaft)
    case SettingDirection => d.state.Stopped? && s.request && Calculated(d.shaft)
    case Enabling => d.state.Stopped? && s.request && Calculated(d.shaft)
    case SettingFreq => d.state.Stopped? && s.request && Calculated(d.shaft)
    case SettingState => d.state.Stopped? && s.request && Calculated(d.shaft) && d.freq == d.shaft.startFreq
    case SettingRate => Moving(d.state) && s.request
    case StartingTimer => Moving(d.state) && s.request
    case Stopping => Moving(d.state)
    case SettingStop => Moving(d.state)
  }

  /** The driver is enabled, and the pulses run, exactly while the motor is not stopped; the steps of the
      start command come a little before or after. */
  predicate OutputsOk(s: Sys) {
    && s.drive.out.enabled == (!s.drive.state.Stopped? || s.pc.SettingFreq? || s.pc.SettingState?)
    && s.drive.out.pulsing == (!s.drive.state.Stopped? && !s.pc.SettingRate? && !s.pc.StartingTimer?)
  }

  /** The frequency is on the ramp, and so is the pulse rate once it has been set. */
  predicate FreqOk(d: Drive, rateSet: bool) {
    && d.shaft.startFreq <= d.freq <= d.shaft.targetFreq
    && (d.state.Cruising? ==> d.freq == d.shaft.targetFreq)
    && (rateSet ==> Hertz(d.shaft.startFreq) <= d.out.freq <= Hertz(d.shaft.targetFreq))
  }

  predicate RunningOk(s: Sys) {
    !s.drive.state.Stopped? ==>
      Calculated(s.drive.shaft) && (s.drive.shaft.targetRPM != 0.0 ==> FreqOk(s.drive, !s.pc.SettingRate?))
  }

  predicate Inv(s: Sys) {
    match s
    case Sys(_, _, _, _, _) => Settings(s.drive.shaft) && PlaceOk(s) && OutputsOk(s) && RunningOk(s)
  }

  lemma HertzGrows(a: real, b: real)
    requires 0.0 <= a <= b
    ensures Hertz(a) <= Hertz(b)
  {
  }

  lemma TickKeepsFreq(d: Drive, rateSet: bool)
    requires !d.state.Stopped? && Calculated(d.shaft) && d.shaft.targetRPM != 0.0 && FreqOk(d, rateSet)
    ensures !Tick(d).state.Stopped? ==> FreqOk(Tick(d), rateSet)
  {
    var e := Tick(d);
    if !e.state.Stopped? {
      HertzGrows(d.shaft.startFreq, e.freq);
      HertzGrows(e.freq, d.shaft.targetFreq);
    }
  }

  lemma InterruptKeepsInv(s: Sys)
    requires Inv(s)
    ensures Inv(Step(s, Interrupt))
  {
    if !s.drive.state.Stopped? && s.drive.shaft.targetRPM != 0.0 {
      TickKeepsFreq(s.drive, !s.pc.SettingRate?);
    }
  }

  predicate InStart(pc: Pc) {
    pc.Starting? || pc.SettingDirection? || pc.Enabling? || pc.SettingFreq? || pc.SettingState? || pc.StartingTimer?
  }

  lemma CalculatingKeepsInv(s: Sys, i: Input)
    requires Inv(s) && s.pc.Calculating?
    ensures Inv(MainStep(s, i))
  {
    ProfileRampsIff(s.drive.shaft, s.input.rpm, s.input.accelTimeSec, s.input.microsteps);
  }

  lemma SettingRateKeepsInv(s: Sys, i: Input)
    requires Inv(s) && s.pc.SettingRate?
    ensures Inv(MainStep(s, i))
  {
    var p := s.drive.shaft;
    if p.targetRPM != 0.0 {
      HertzGrows(80.0, p.startFreq);
      HertzGrows(p.startFreq, p.targetFreq);
    }
  }

  lemma StartKeepsInv(s: Sys, i: Input)
    requires Inv(s) && InStart(s.pc)
    ensures Inv(MainStep(s, i))
  {
  }

  lemma OtherKeepsInv(s: Sys, i: Input)
    requires Inv(s) && !InStart(s.pc) && !s.pc.Calculating? && !s.pc.SettingRate?
    ensures Inv(MainStep(s, i))
  {
  }

  lemma MainKeepsInv(s: Sys, i: Input)
    requires Inv(s)
    ensures Inv(MainStep(s, i))
  {
    if s.pc.Calculating? {
      CalculatingKeepsInv(s, i);
    } else if s.pc.SettingRate? {
      SettingRateKeepsInv(s, i);
    } else if InStart(s.pc) {
      StartKeepsInv(s, i);
    } else {
      OtherKeepsInv(s, i);
    }
  }

  /** The invariant holds after any interleaving of the loop with the interrupt, from the start on. */
  lemma {:induction false} RunKeepsInv(lastSwitch: bool, i: Input, actions: seq<Action>, n: nat)
    requires n <= |actions|
    ensures Inv(Run(Initial(lastSwitch, i), actions, n))
  {
    if n > 0 {
      RunKeepsInv(lastSwitch, i, actions, n - 1);
      match actions[n - 1]
      case Main(input) => MainKeepsInv(Run(Initial(lastSwitch, i), actions, n - 1), input);
      case Interrupt => InterruptKeepsInv(Run(Initial(lastSwitch, i), actions, n - 1));
    }
  }

  // ---------------------------------------------------------------------------
  // Safety
  // ---------------------------------------------------------------------------

  /** Whenever an iteration is over: the driver is enabled and pulsed exactly while the motor is not
      stopped, and without a run request the motor is stopped or slowing down. */
  lemma SafeBetweenIterations(lastSwitch: bool, i: Input, actions: seq<Action>)
    requires Run(Initial(lastSwitch, i), actions, |actions|).pc.Top?
    ensures var s := Run(Initial(lastSwitch, i), actions, |actions|);
            && (s.drive.out.enabled <==> !s.drive.state.Stopped?)
            && (s.drive.out.pulsing <==> !s.drive.state.Stopped?)
            && (!s.request ==> s.drive.state.Stopped? || s.drive.state.Decelerating?)
  {
    RunKeepsInv(lastSwitch, i, actions, |actions|);
  }

  /** At every moment pulses go only to an enabled driver. */
  lemma PulsesOnlyWhenEnabled(lastSwitch: bool, i: Input, actions: seq<Action>)
    ensures var s := Run(Initial(lastSwitch, i), actions, |actions|);
            s.drive.out.pulsing ==> s.drive.out.enabled && !s.drive.state.Stopped?
  {
    RunKeepsInv(lastSwitch, i, actions, |actions|);
  }

  /** While the motor runs its frequency lies between the start and the target frequency exactly if some
      profile with a speed below 200 RPM has been calculated. */
  lemma FrequencyInRangeIff(lastSwitch: bool, i: Input, actions: seq<Action>)
    requires !Run(Initial(lastSwitch, i), actions, |actions|).drive.state.Stopped?
    ensures var d := Run(Initial(lastSwitch, i), actions, |actions|).drive;
            d.shaft.startFreq <= d.freq <= d.shaft.targetFreq <==> Accepted(lastSwitch, i, actions, |actions|)
  {
    RunKeepsInv(lastSwitch, i, actions, |actions|);
    AcceptedHasTarget(lastSwitch, i, actions, |actions|);
  }

  /** A profile with a speed below 200 RPM is among the first `n` actions. */
  predicate Accepted(lastSwitch: bool, i: Input, actions: seq<Action>, n: nat)
    requires n <= |actions|
  {
    n > 0 && (Accepted(lastSwitch, i, actions, n - 1) ||
              (var s := Run(Initial(lastSwitch, i), actions, n - 1);
               actions[n - 1].Main? && s.pc.Calculating? && s.input.rpm < MAX_RPM))
  }

  lemma {:induction false} AcceptedHasTarget(lastSwitch: bool, i: Input, actions: seq<Action>, n: nat)
    requires n <= |actions|
    ensures Run(Initial(lastSwitch, i), actions, n).drive.shaft.targetRPM != 0.0
            <==> Accepted(lastSwitch, i, actions, n)
  {
    if n > 0 {
      AcceptedHasTarget(lastSwitch, i, actions, n - 1);
      RunKeepsInv(lastSwitch, i, actions, n - 1);
      var s := Run(Initial(lastSwitch, i), actions, n - 1);
      ProfileRampsIff(s.drive.shaft, s.input.rpm, s.input.accelTimeSec, s.input.microsteps);
    }
  }

  /** Once a speed was accepted the pulse rate lies in the same range while pulses run. */
  lemma PulseRateInRange(lastSwitch: bool, i: Input, actions: seq<Action>)
    requires Run(Initial(lastSwitch, i), actions, |actions|).drive.out.pulsing
    requires Accepted(lastSwitch, i, actions, |actions|)
    ensures var d := Run(Initial(lastSwitch, i), actions, |actions|).drive;
            Hertz(d.shaft.startFreq) <= d.out.freq <= Hertz(d.shaft.targetFreq)
  {
    RunKeepsInv(lastSwitch, i, actions, |actions|);
    AcceptedHasTarget(lastSwitch, i, actions, |actions|);
  }

  /** The profile and the direction change only while the motor is stopped and gets no pulses. */
  lemma ChangesOnlyWhenStopped(lastSwitch: bool, i: Input, actions: seq<Action>, a: Action)
    requires var s := Run(Initial(lastSwitch, i), actions, |actions|);
             Step(s, a).drive.shaft != s.drive.shaft || Step(s, a).drive.out.dir != s.drive.out.dir
    ensures var s := Run(Initial(lastSwitch, i), actions, |actions|);
            s.drive.state.Stopped? && !s.drive.out.enabled && !s.drive.out.pulsing
  {
    RunKeepsInv(lastSwitch, i, actions, |actions|);
  }

  // ---------------------------------------------------------------------------
  // The start command interrupted
  // ---------------------------------------------------------------------------

  /** A drive that moves on profile `p`. If the ramp was not over when the start rate was put back, it has
      the target rate as soon as it cruises; otherwise it cruises at the start rate. */
  predicate Cruises(d: Drive, p: Shaft, early: bool) {
    && d.shaft == p
    && if early then d.state.Accelerating? || (d.state.Cruising? && d.out.freq == Hertz(p.targetFreq))
       else d.state.Cruising? && d.out.freq == Hertz(p.startFreq)
  }

  ghost predicate OnItsWay(s: Sys, p: Shaft, early: bool) {
    match s
    case Sys(drive, pc, _, _, _) =>
      Inv(s) && p.targetRPM != 0.0 && Cruises(drive, p, early) && !pc.SettingRate? && Moving(drive.state)
  }

  /** That stays so while the motor moves: no later interrupt puts a wrong rate right, and no step of the
      loop touches it. */
  lemma MovingKeepsCruise(s: Sys, a: Action, p: Shaft, early: bool)
    requires OnItsWay(s, p, early) && Moving(Step(s, a).drive.state)
    ensures OnItsWay(Step(s, a), p, early)
  {
    HertzGrows(80.0, p.targetFreq);
    match a
    case Main(i) => MainKeepsInv(s, i);
    case Interrupt => InterruptKeepsInv(s);
  }

  lemma {:induction false} MovingRunKeepsCruise(s: Sys, actions: seq<Action>, n: nat, m: nat, p: Shaft, early: bool)
    requires n <= m <= |actions| && OnItsWay(Run(s, actions, n), p, early)
    requires forall q :: n <= q <= m ==> Moving(Run(s, actions, q).drive.state)
    ensures OnItsWay(Run(s, actions, m), p, early)
    decreases m - n
  {
    if n < m {
      MovingRunKeepsCruise(s, actions, n, m - 1, p, early);
      Next(s, actions, m - 1);
      MovingKeepsCruise(Run(s, actions, m - 1), actions[m - 1], p, early);
    }
  }

  /** `n` interrupts in a row. */
  lemma {:induction false} InterruptsOnly(s: Sys, actions: seq<Action>, k: nat, n: nat)
    requires k + n <= |actions| && forall x :: k <= x < k + n ==> actions[x].Interrupt?
    ensures var sk := Run(s, actions, k); Run(s, actions, k + n) == sk.(drive := Ticks(sk.drive, n))
  {
    if n > 0 {
      InterruptsOnly(s, actions, k, n - 1);
      Next(s, actions, k + n - 1);
    }
  }

  /** Putting the start rate back after `n` interrupts is early exactly if the ramp was not over by then. */
  lemma RateSetAfter(s: Sys, i: Input, t: real, n: nat)
    requires Inv(s) && s.pc.SettingRate? && s.drive.state.Accelerating? && s.drive.freq == s.drive.shaft.startFreq
    requires Ramp(s.drive.shaft, t)
    ensures var s1 := MainStep(s.(drive := Ticks(s.drive, n)), i);
            Cruises(s1.drive, s.drive.shaft, n < Ceil(t)) && s1.pc.StartingTimer? && Moving(s1.drive.state)
  {
    AccelerationTime(s.drive, t, n);
    HertzGrows(80.0, s.drive.shaft.startFreq);
    if n < Ceil(t) {
      RampUp(s.drive, t, n);
    }
  }

  lemma RateSetFrom(s: Sys, i: Input, j: Input, t: real, n: nat)
    requires Inv(s) && s.pc.SettingState? && Ramp(s.drive.shaft, t)
    ensures s.drive.shaft.targetRPM != 0.0
    ensures var s1 := MainStep(s, i);
            var s2 := MainStep(s1.(drive := Ticks(s1.drive, n)), j);
            Cruises(s2.drive, s.drive.shaft, n < Ceil(t)) && !s2.pc.SettingRate? && Moving(s2.drive.state)
  {
    MainKeepsInv(s, i);
    RateSetAfter(MainStep(s, i), j, t, n);
  }

  lemma RateSetInRun(lastSwitch: bool, i: Input, actions: seq<Action>, k: nat, n: nat, t: real)
    requires k + n + 2 <= |actions| && Run(Initial(lastSwitch, i), actions, k).pc.SettingState?
    requires Ramp(Run(Initial(lastSwitch, i), actions, k).drive.shaft, t)
    requires actions[k].Main? && actions[k + 1 + n].Main?
    requires forall x :: k + 1 <= x < k + 1 + n ==> actions[x].Interrupt?
    ensures var p := Run(Initial(lastSwitch, i), actions, k).drive.shaft;
            var s := Run(Initial(lastSwitch, i), actions, k + n + 2);
            OnItsWay(s, p, n < Ceil(t))
  {
    var s0 := Initial(lastSwitch, i);
    RunKeepsInv(lastSwitch, i, actions, k);
    Next(s0, actions, k);
    InterruptsOnly(s0, actions, k + 1, n);
    Next(s0, actions, k + 1 + n);
    RateSetFrom(Run(s0, actions, k), actions[k].input, actions[k + 1 + n].input, t, n);
    RunKeepsInv(lastSwitch, i, actions, k + n + 2);
  }

  /** In any run: the start command has set the state (action `k`), `n` interrupts come, and the command sets
      the pulse rate. As long as the motor is not stopped after that, it will cruise at the target rate
      exactly if the ramp was not over by then. Otherwise it cruises at the start rate. */
  lemma CruiseRateIff(lastSwitch: bool, i: Input, actions: seq<Action>, k: nat, n: nat, m: nat, t: real)
    requires k + n + 2 <= m <= |actions| && Run(Initial(lastSwitch, i), actions, k).pc.SettingState?
    requires Ramp(Run(Initial(lastSwitch, i), actions, k).drive.shaft, t)
    requires actions[k].Main? && actions[k + 1 + n].Main?
    requires forall x :: k + 1 <= x < k + 1 + n ==> actions[x].Interrupt?
    requires forall q :: k + n + 2 <= q <= m ==> Moving(Run(Initial(lastSwitch, i), actions, q).drive.state)
    ensures var p := Run(Initial(lastSwitch, i), actions, k).drive.shaft;
            var d := Run(Initial(lastSwitch, i), actions, m).drive;
            d.state.Cruising? ==> d.out.freq == if n < Ceil(t) then Hertz(p.targetFreq) else Hertz(p.startFreq)
  {
    var p := Run(Initial(lastSwitch, i), actions, k).drive.shaft;
    RateSetInRun(lastSwitch, i, actions, k, n, t);
    MovingRunKeepsCruise(Initial(lastSwitch, i), actions, k + n + 2, m, p, n < Ceil(t));
  }

  /** Ten steps of the loop, an interrupt before the pulse rate is set, and the rest of the command. */
  function Example(i: Input): seq<Action> {
    var m := Main(i);
    [m, m, m, m, m, m, m, m, m, m, Interrupt, m, m]
  }

  /** One interrupt is enough for a ramp of a millisecond: 100 RPM are requested and cruised at, and the
      pulses stay at the rate of 2 RPM. */
  lemma CruiseRateExample(i: Input)
    requires i.start && !i.stop && i.rpm == 100.0 && i.accelTimeSec == 0.0 && i.microsteps == 5000
    ensures var s := Run(Initial(false, i), Example(i), 13);
            && s.pc.Top? && s.drive.state.Cruising? && s.drive.out.pulsing
            && s.drive.shaft.targetFreq == 25000.0 && s.drive.out.freq == 500
  {
    var a, s0 := Example(i), Initial(false, i);
    var p := Shaft(5000, 100.0, 500.0, 25000.0, 24500.0);
    ExampleProfile();
    Next(s0, a, 0);
    Next(s0, a, 1);
    Next(s0, a, 2);
    Next(s0, a, 3);
    var s4 := Sys(s0.drive, Calculating, true, i.switchOn, i);
    assert Run(s0, a, 4) == s4;
    Next(s0, a, 4);
    var s5 := s4.(pc := Starting, drive := s0.drive.(shaft := p));
    assert Run(s0, a, 5) == s5;
    Next(s0, a, 5);
    Next(s0, a, 6);
    Next(s0, a, 7);
    var s8 := s5.(pc := SettingFreq, drive := Drive(p, Stopped, 0.0, Outputs(i.dir, true, false, 0)));
    assert Run(s0, a, 8) == s8;
    Next(s0, a, 8);
    Next(s0, a, 9);
    var s10 := s8.(pc := SettingRate, drive := Drive(p, Accelerating, 500.0, s8.drive.out));
    assert Run(s0, a, 10) == s10;
    Next(s0, a, 10);
    Next(s0, a, 11);
    Next(s0, a, 12);
  }

  lemma ExampleProfile()
    ensures Profile(DEFAULT_SHAFT, 100.0, 0.0, 5000) == Shaft(5000, 100.0, 500.0, 25000.0, 24500.0)
  {
  }
}
