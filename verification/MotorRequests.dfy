/** What a run request brings about: one iteration of the main loop in any run, and the commanded profile. */
module MotorRequests {
  import opened Words
  import opened Motor
  import opened MotorLoop

  // ---------------------------------------------------------------------------
  // One iteration, with interrupts anywhere
  // ---------------------------------------------------------------------------

  /** Actions `k` to `m` are one iteration of the loop. */
  ghost predicate IsIteration(s: Sys, actions: seq<Action>, k: nat, m: nat)
    requires m <= |actions|
  {
    && k < m && actions[k].Main?
    && Run(s, actions, k).pc.Top? && Run(s, actions, m).pc.Top?
    && forall q :: k < q < m ==> !Run(s, actions, q).pc.Top?
  }

  /** A stop command wins, then a start command, then a change of the switch. */
  ghost predicate RequestOk(s0: Sys, i: Input, request: bool) {
    && (i.stop ==> !request)
    && (i.start && !i.stop ==> request)
    && (!i.start && !i.stop && i.switchOn != s0.lastSwitch ==> request == i.switchOn)
    && (!i.start && !i.stop && i.switchOn == s0.lastSwitch ==> request == s0.request)
  }

  /** The drive `d` has been started in the direction and on the profile of `i`. */
  ghost predicate Started(s0: Sys, i: Input, d: Drive) {
    && Moving(d.state) && d.out.dir == i.dir
    && d.shaft == Profile(s0.drive.shaft, i.rpm, i.accelTimeSec, i.microsteps)
  }

  ghost predicate Undecided(s0: Sys, s: Sys) {
    && s.request == s0.request && s.lastSwitch == s0.lastSwitch && Unchanged(s0.drive, s.drive)
  }

  /** Interrupts alone have come. */
  ghost predicate Unchanged(d0: Drive, d: Drive) {
    && d.shaft == d0.shaft && d.out.dir == d0.out.dir
    && Moving(d.state) == Moving(d0.state)
    && (d0.state.Stopped? ==> d == d0)
  }

  ghost predicate Decided(s0: Sys, i: Input, s: Sys) {
    RequestOk(s0, i, s.request) && s.lastSwitch == i.switchOn
  }

  ghost predicate Seen(s0: Sys, seen: State) {
    && Moving(seen) == Moving(s0.drive.state)
    && (s0.drive.state.Stopped? ==> seen.Stopped?)
  }

  /** What has been done at a place inside the iteration that began in `s0` with the input `i`. */
  ghost predicate Within(s0: Sys, i: Input, s: Sys) {
    s.input == i &&
    var d := s.drive;
    var started := s0.drive.state.Stopped? ==>
      d.state.Stopped? && d.shaft == Profile(s0.drive.shaft, i.rpm, i.accelTimeSec, i.microsteps);
    match s.pc
    case Top => false
    case Reading => Undecided(s0, s)
    case Arbitrating(seen) => Undecided(s0, s) && Seen(s0, seen)
    case Deciding(seen) => Decided(s0, i, s) && Unchanged(s0.drive, d) && Seen(s0, seen)
    case Calculating =>
      Decided(s0, i, s) && !Moving(s0.drive.state) && s.request && (s0.drive.state.Stopped? ==> d == s0.drive)
    case Starting => Decided(s0, i, s) && !Moving(s0.drive.state) && s.request && started
    case SettingDirection => Decided(s0, i, s) && !Moving(s0.drive.state) && s.request && started
    case Enabling => Decided(s0, i, s) && !Moving(s0.drive.state) && s.request && started && d.out.dir == i.dir
    case SettingFreq => Decided(s0, i, s) && !Moving(s0.drive.state) && s.request && started && d.out.dir == i.dir
    case SettingState => Decided(s0, i, s) && !Moving(s0.drive.state) && s.request && started && d.out.dir == i.dir
    case SettingRate =>
      Decided(s0, i, s) && !Moving(s0.drive.state) && s.request && (s0.drive.state.Stopped? ==> Started(s0, i, d))
    case StartingTimer =>
      Decided(s0, i, s) && !Moving(s0.drive.state) && s.request && (s0.drive.state.Stopped? ==> Started(s0, i, d))
    case Stopping => Decided(s0, i, s) && Moving(s0.drive.state) && !s.request
    case SettingStop => Decided(s0, i, s) && Moving(s0.drive.state) && !s.request
  }

  /** What an iteration that began in `s0` with the input `i` has done when it ends in `s`. */
  ghost predicate Done(s0: Sys, i: Input, s: Sys) {
    && RequestOk(s0, i, s.request) && s.lastSwitch == i.switchOn
    && (s.request && s0.drive.state.Stopped? ==> Started(s0, i, s.drive))
    && (s.request && Moving(s0.drive.state) ==>
          Moving(s.drive.state) && s.drive.shaft == s0.drive.shaft && s.drive.out.dir == s0.drive.out.dir)
    && (!s.request && s0.drive.state.Stopped? ==> s.drive == s0.drive)
  }

  lemma IterationStep(s0: Sys, i: Input, s: Sys, a: Action)
    requires Inv(s) && Within(s0, i, s)
    ensures var e := Step(s, a); if e.pc.Top? then Done(s0, i, e) else Within(s0, i, e)
  {
    match a
    case Interrupt => TickInside(s0, i, s);
    case Main(j) =>
      if s.pc.Reading? || s.pc.Arbitrating? || s.pc.Deciding? {
        DecidingInside(s0, i, s, j);
      } else {
        ActingInside(s0, i, s, j);
      }
  }

  lemma TickInside(s0: Sys, i: Input, s: Sys)
    requires Inv(s) && Within(s0, i, s)
    ensures Within(s0, i, Step(s, Interrupt))
  {
  }

  lemma DecidingInside(s0: Sys, i: Input, s: Sys, j: Input)
    requires Inv(s) && Within(s0, i, s) && (s.pc.Reading? || s.pc.Arbitrating? || s.pc.Deciding?)
    ensures var e := MainStep(s, j); if e.pc.Top? then Done(s0, i, e) else Within(s0, i, e)
  {
  }

  lemma ActingInside(s0: Sys, i: Input, s: Sys, j: Input)
    requires Inv(s) && Within(s0, i, s) && !s.pc.Reading? && !s.pc.Arbitrating? && !s.pc.Deciding?
    ensures var e := MainStep(s, j); if e.pc.Top? then Done(s0, i, e) else Within(s0, i, e)
  {
  }

  lemma {:induction false} IterationInside(lastSwitch: bool, j: Input, actions: seq<Action>, k: nat, m: nat, n: nat)
    requires m <= |actions| && IsIteration(Initial(lastSwitch, j), actions, k, m)
    requires k < n < m
    ensures var s0 := Initial(lastSwitch, j);
            Within(Run(s0, actions, k), actions[k].input, Run(s0, actions, n))
    decreases n
  {
    var s0 := Initial(lastSwitch, j);
    Next(s0, actions, n - 1);
    RunKeepsInv(lastSwitch, j, actions, n - 1);
    if n > k + 1 {
      IterationInside(lastSwitch, j, actions, k, m, n - 1);
      IterationStep(Run(s0, actions, k), actions[k].input, Run(s0, actions, n - 1), actions[n - 1]);
    }
  }

  /** In any run, an iteration whose input has a stop command ends with the motor stopped or slowing down.
      With a start command and no stop command a stopped motor is left moving, in the direction and on the
      profile asked for, enabled and with pulses; a moving one is left alone. With neither command the same
      follows from the switch if it has changed, and from the former request otherwise. */
  lemma IterationObeys(lastSwitch: bool, j: Input, actions: seq<Action>, k: nat, m: nat)
    requires m <= |actions| && IsIteration(Initial(lastSwitch, j), actions, k, m)
    ensures var s0, s, i := Run(Initial(lastSwitch, j), actions, k), Run(Initial(lastSwitch, j), actions, m),
                            actions[k].input;
            && s.request == (if i.stop then false
                             else if i.start then true
                             else if i.switchOn != s0.lastSwitch then i.switchOn
                             else s0.request)
            && s.lastSwitch == i.switchOn
            && (!s.request ==> s.drive.state.Stopped? || s.drive.state.Decelerating?)
            && (s.request && s0.drive.state.Stopped? ==>
                  && (s.drive.state.Accelerating? || s.drive.state.Cruising?)
                  && s.drive.out.enabled && s.drive.out.pulsing && s.drive.out.dir == i.dir
                  && s.drive.shaft == Profile(s0.drive.shaft, i.rpm, i.accelTimeSec, i.microsteps))
            && (s.request && Moving(s0.drive.state) ==>
                  Moving(s.drive.state) && s.drive.shaft == s0.drive.shaft && s.drive.out.dir == s0.drive.out.dir)
            && (!s.request && s0.drive.state.Stopped? ==> s.drive == s0.drive)
  {
    var init := Initial(lastSwitch, j);
    Next(init, actions, k);
    assert m > k + 1;
    IterationInside(lastSwitch, j, actions, k, m, m - 1);
    RunKeepsInv(lastSwitch, j, actions, m - 1);
    Next(init, actions, m - 1);
    IterationStep(Run(init, actions, k), actions[k].input, Run(init, actions, m - 1), actions[m - 1]);
    RunKeepsInv(lastSwitch, j, actions, m);
  }

  // ---------------------------------------------------------------------------
  // The profile that a start command asks for
  // ---------------------------------------------------------------------------

  lemma FrequencyOf(rpm: real, microsteps: u16)
    ensures 20.0 * Frequency(rpm, microsteps) == rpm * (microsteps as real)
  {
    var m := microsteps as real;
    assert (rpm * GEAR_RATIO) / SECONDS_PER_MINUTE == rpm / 20.0;
    assert 20.0 * ((rpm / 20.0) * m) == (20.0 * (rpm / 20.0)) * m;
  }

  /** The requested microsteps are taken from 800 on, the speed below 200 RPM; 2 RPM and less become 2.1. A
      frequency is a twentieth of the speed times the microsteps, and the ramp from that of 2 RPM has the
      requested time, or a millisecond if less is requested. */
  lemma CommandedProfile(s: Shaft, rpm: real, accelTimeSec: real, microsteps: u16)
    ensures var p := Profile(s, rpm, accelTimeSec, microsteps);
            && p.microsteps == (if microsteps >= 800 then microsteps else s.microsteps)
            && p.targetRPM == (if rpm >= 200.0 then s.targetRPM else if rpm > 2.0 then rpm else 2.1)
            && 20.0 * p.startFreq == 2.0 * (p.microsteps as real)
            && 20.0 * p.targetFreq == p.targetRPM * (p.microsteps as real)
            && Product(if accelTimeSec <= 0.001 then 1.0 else 1000.0 * accelTimeSec, p.stepPerMs)
               == p.targetFreq - p.startFreq
  {
    var p := Profile(s, rpm, accelTimeSec, microsteps);
    FrequencyOf(2.0, p.microsteps);
    FrequencyOf(p.targetRPM, p.microsteps);
    DivTimes(p.targetFreq - p.startFreq, RampMs(accelTimeSec));
  }

  /** A drive that is started below 200 RPM runs enabled, with pulses at the start frequency, in the asked
      direction. It accelerates for the asked time, rounded up to whole ticks, and then has the frequency of
      the commanded profile. */
  lemma StartsAsAsked(d: Drive, i: Input, n: nat)
    requires Settings(d.shaft) && d.state.Stopped? && i.rpm < 200.0
    ensures var p := Profile(d.shaft, i.rpm, i.accelTimeSec, i.microsteps);
            var started := Start(d.(shaft := p), i.dir);
            var e := Ticks(started, n);
            && started.out == Outputs(i.dir, true, true, Hertz(p.startFreq))
            && started.freq == p.startFreq && started.shaft == p
            && e.state == (if n as real < (if i.accelTimeSec <= 0.001 then 1.0 else 1000.0 * i.accelTimeSec)
                           then Accelerating else Cruising)
            && (e.state.Cruising? ==> e.freq == p.targetFreq && e.shaft == p)
  {
    ProfileRampsIff(d.shaft, i.rpm, i.accelTimeSec, i.microsteps);
    StartedRamps(d, Profile(d.shaft, i.rpm, i.accelTimeSec, i.microsteps), i.dir, RampMs(i.accelTimeSec), n);
  }

  lemma StartedRamps(d: Drive, p: Shaft, dir: u8, t: real, n: nat)
    requires d.state.Stopped? && 80.0 <= p.startFreq && Ramp(p, t)
    ensures var started := Start(d.(shaft := p), dir);
            && started == Drive(p, Accelerating, p.startFreq, Outputs(dir, true, true, Hertz(p.startFreq)))
            && Ticks(started, n).state == (if n as real < t then Accelerating else Cruising)
            && (n as real >= t ==> Ticks(started, n).freq == p.targetFreq && Ticks(started, n).shaft == p)
  {
    HertzGrows(80.0, p.startFreq);
    CeilIsLeast(t, n);
    AccelerationTime(Start(d.(shaft := p), dir), t, n);
  }

  // ---------------------------------------------------------------------------
  // The pulse rate
  // ---------------------------------------------------------------------------

  /** The pulses have the frequency of the drive, cut to whole hertz. */
  predicate RateFollows(d: Drive) {
    d.out.freq == d.freq.Floor
  }

  ghost predicate OnRamp(d: Drive) {
    match d
    case Drive(shaft, state, freq, _) =>
      && 1.0 <= shaft.startFreq < shaft.targetFreq && 0.0 < shaft.stepPerMs
      && !state.Stopped? && shaft.startFreq <= freq <= shaft.targetFreq
  }

  lemma TickKeepsRate(d: Drive)
    requires OnRamp(d) && RateFollows(d)
    ensures var e := Tick(d);
            && e.shaft == d.shaft && e.out.dir == d.out.dir
            && (!e.state.Stopped? ==> OnRamp(e) && RateFollows(e) && e.out == d.out.(freq := e.out.freq))
            && (e.state.Stopped? ==> e.out == d.out.(pulsing := false, enabled := false))
  {
  }

  /** On the ramp and while cruising, through every tick up to the stop, the pulses have the frequency of
      the drive, and no tick touches the profile, the direction or, before the stop, enable and timer. */
  lemma {:induction false} RateFollowsRamp(d: Drive, n: nat)
    requires OnRamp(d) && RateFollows(d) && !Ticks(d, n).state.Stopped?
    ensures var e := Ticks(d, n);
            OnRamp(e) && RateFollows(e) && e.shaft == d.shaft && e.out == d.out.(freq := e.out.freq)
  {
    if n > 0 {
      StoppedStays(d, n - 1);
      RateFollowsRamp(d, n - 1);
      TickKeepsRate(Ticks(d, n - 1));
    }
  }

  lemma StoppedStays(d: Drive, n: nat)
    ensures Ticks(d, n).state.Stopped? ==> Ticks(d, n + 1) == Ticks(d, n)
  {
  }

  /** A first request of 200 RPM or more: from the first tick on the drive cruises at frequency 0, and the
      pulses keep the rate of 2 RPM. */
  lemma {:induction false} FastFirstRequest(d: Drive, i: Input, n: nat)
    requires Settings(d.shaft) && d.shaft.targetRPM == 0.0 && d.state.Stopped? && i.rpm >= 200.0
    ensures var p := Profile(d.shaft, i.rpm, i.accelTimeSec, i.microsteps);
            var e := Ticks(Start(d.(shaft := p), i.dir), n);
            && p.startFreq >= 80.0 && e.out == Outputs(i.dir, true, true, p.startFreq.Floor)
            && (n > 0 ==> e.state.Cruising? && e.freq == 0.0)
  {
    var p := Profile(d.shaft, i.rpm, i.accelTimeSec, i.microsteps);
    ProfileRampsIff(d.shaft, i.rpm, i.accelTimeSec, i.microsteps);
    HertzGrows(80.0, p.startFreq);
    if n > 0 {
      FastFirstRequest(d, i, n - 1);
      FallsAtMostToZero(p.startFreq, RampMs(i.accelTimeSec));
    }
  }

  /** Dividing the way down to 0 by a millisecond or more leads no further than 0. */
  lemma FallsAtMostToZero(f: real, t: real)
    requires 0.0 <= f && 1.0 <= t
    ensures f + Quotient(0.0 - f, t) >= 0.0
  {
    var q := Quotient(0.0 - f, t);
    DivTimes(0.0 - f, t);
    MulNotPositive(t - 1.0, q);
    assert t * q == (t - 1.0) * q + q;
  }

  lemma MulNotPositive(a: real, b: real)
    requires 0.0 <= a && b <= 0.0
    ensures a * b <= 0.0
  {
  }
}
