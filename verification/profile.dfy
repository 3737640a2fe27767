/** The profile scheduler: once per minute or hour it advances the running
    profile's elapsed time, switches to the next step when the current step's
    duration is used up, and otherwise ramps the setpoint towards the next
    step's setpoint. */
module Profile {
  import opened Ints
  import opened Layout
  import opened Config
  import opened Arith
  import opened Counter

  // ---- reading the running step --------------------------------------------

  /** A profile is running when the run mode, read as a byte, names one. */
  predicate Running(s: Store)
    requires ValidStore(s)
  {
    ToUint8(ReadParam(s, Rn)) < ThermostatMode
  }

  function RunningProfile(s: Store): (p: nat)
    requires ValidStore(s) && Running(s)
    ensures p < NoOfProfiles
  {
    ToUint8(ReadParam(s, Rn))
  }

  /** The current step, forced into 0..8 when the store holds more. */
  function CurStep(s: Store): (st: nat)
    requires ValidStore(s)
    ensures st < NoOfTtPairs
  {
    var st := ToUint8(ReadParam(s, St));
    if st > NoOfTtPairs - 1 then NoOfTtPairs - 1 else st
  }

  /** Elapsed time including the tick being processed. */
  function Elapsed(s: Store): uint16
    requires ValidStore(s)
  {
    ToUint16(ReadParam(s, Dh) + 1)
  }

  /** Address of the current step's setpoint. */
  function StepBase(s: Store): (a: uint8)
    requires ValidStore(s) && Running(s)
    ensures a + 2 < MenuBase
    ensures CurStep(s) < NoOfTtPairs - 1 ==> a + 3 < MenuBase
  {
    assert RunningProfile(s) * ProfileSize <= (NoOfProfiles - 1) * ProfileSize;
    ProfileSetpointAddr(RunningProfile(s), CurStep(s))
  }

  function StepDuration(s: Store): uint16
    requires ValidStore(s) && Running(s)
  {
    ToUint16(Read(s, StepBase(s) + 1))
  }

  function StepSetpoint(s: Store): int16
    requires ValidStore(s) && Running(s)
  {
    Read(s, StepBase(s))
  }

  function NextSetpoint(s: Store): int16
    requires ValidStore(s) && Running(s)
  {
    Read(s, StepBase(s) + 2)
  }

  /** The running step is the profile's last: it is step 8, or the step after
      it has a zero duration. */
  predicate LastStep(s: Store)
    requires ValidStore(s) && Running(s)
  {
    CurStep(s) == NoOfTtPairs - 1 || Read(s, StepBase(s) + 3) == 0
  }

  // ---- the 64-substep ramp -------------------------------------------------

  /** The interpolation loop: each of `n` substeps adds the next setpoint
      while the scaled elapsed time `t` still covers a whole duration `d`
      (consuming it), and the current setpoint otherwise. */
  function RampLoop(n: nat, t: int, d: int, acc: int, cur: int, next: int): int
    decreases n
  {
    if n == 0 then acc
    else if t >= d then RampLoop(n - 1, t - d, d, acc + next, cur, next)
    else RampLoop(n - 1, t, d, acc + cur, cur, next)
  }

  /** The loop adds the next setpoint min(n, t / d) times and the current one
      for the remaining substeps. */
  lemma {:induction false} RampLoopCounts(n: nat, t: int, d: int, acc: int, cur: int, next: int)
    requires d > 0 && t >= 0
    ensures var k := Min(n, t / d);
      RampLoop(n, t, d, acc, cur, next) == acc + k * next + (n - k) * cur
    decreases n
  {
    if n > 0 {
      if t >= d {
        var k := Min(n - 1, (t - d) / d);
        RampLoopCounts(n - 1, t - d, d, acc + next, cur, next);
        DivMinusDivisor(t, d);
        assert Min(n, t / d) == k + 1;
        MulSucc(k, next);
      } else {
        RampLoopCounts(n - 1, t, d, acc + cur, cur, next);
        assert t / d == 0;
        MulSucc(n - 1, cur);
      }
    }
  }

  lemma WeightedBetween(k: int, cur: int, next: int)
    requires 0 <= k <= 64
    ensures 64 * Min(cur, next) <= k * next + (64 - k) * cur <= 64 * Max(cur, next)
  {
    var x := k * next + (64 - k) * cur;
    assert x == 64 * cur + k * (next - cur);
    if next >= cur {
      assert 0 <= k * (next - cur) <= 64 * (next - cur);
    } else {
      assert 64 * (next - cur) <= k * (next - cur) <= 0;
    }
  }

  /** The ramped setpoint after `elapsed` of `dur` time units: the 64-step
      weighted mean of the two setpoints, rounded, with weight
      k = ((64 * elapsed) mod 2^16) / dur on the next setpoint; it always lies
      between the current and the next setpoint. */
  function RampSetpoint(elapsed: uint16, dur: uint16, cur: int16, next: int16): (sp: int16)
    requires elapsed < dur
    ensures var k := ToUint16(elapsed * 64) / dur;
      && 0 <= k < 64
      && sp == (32 + k * next + (64 - k) * cur) / 64
    ensures Min(cur, next) <= sp <= Max(cur, next)
  {
    var t := ToUint16(elapsed * 64);
    RampWeightBelow64(elapsed, dur);
    var acc := RampLoop(64, t, dur, 32, cur, next);
    RampMean(t, dur, cur, next);
    ToInt16(acc / 64)
  }

  /** The rounded 64-substep mean stays between the two setpoints. */
  lemma RampMean(t: int, d: int, cur: int16, next: int16)
    requires 0 <= t && d > 0 && t / d < 64
    ensures var k := t / d;
      RampLoop(64, t, d, 32, cur, next) == 32 + k * next + (64 - k) * cur
    ensures Min(cur, next) <= RampLoop(64, t, d, 32, cur, next) / 64 <= Max(cur, next)
  {
    RampLoopCounts(64, t, d, 32, cur, next);
    WeightedBetween(t / d, cur, next);
  }

  lemma RampWeightBelow64(elapsed: uint16, dur: uint16)
    requires elapsed < dur
    ensures 0 <= ToUint16(elapsed * 64) / dur < 64
  {
    var t := ToUint16(elapsed * 64);
    assert t <= elapsed * 64;
    DivBelow(t, dur, 64);
    FloorBounds(t, dur);
  }

  /** Without wrap-around of the scaled elapsed time the weight is exactly
      floor(64 * elapsed / dur). */
  lemma RampWeightNoWrap(elapsed: uint16, dur: uint16)
    requires elapsed < 1024
    ensures ToUint16(elapsed * 64) == 64 * elapsed
  {
  }

  // ---- one scheduler call --------------------------------------------------

  /** The words a scheduler call may change. */
  predicate SchedulerWord(a: uint8)
  {
    a == Addr(SP) || a == Addr(St) || a == Addr(Dh) || a == Addr(Rn)
  }

  /** The current step's time is used up: the setpoint becomes the next
      step's setpoint, then either the profile ends (elapsed time untouched)
      or the next step starts. */
  function EndStep(s: Store): (s': Store)
    requires ValidStore(s) && Running(s)
    ensures ValidStore(s')
    ensures forall a: uint8 :: !SchedulerWord(a) ==> Read(s', a) == Read(s, a)
    ensures ReadParam(s', SP) == NextSetpoint(s)
    ensures LastStep(s) ==>
              ReadParam(s', Rn) == ThermostatMode as int16
              && ReadParam(s', St) == ReadParam(s, St)
              && ReadParam(s', Dh) == ReadParam(s, Dh)
    ensures !LastStep(s) ==>
              ReadParam(s', Rn) == ReadParam(s, Rn)
              && ReadParam(s', St) == (CurStep(s) + 1) as int16
              && ReadParam(s', Dh) == 0
  {
    var s1 := Write(s, Addr(SP), NextSetpoint(s));
    if CurStep(s) == NoOfTtPairs - 1 || Read(s1, StepBase(s) + 3) == 0 then
      Write(s1, Addr(Rn), ThermostatMode as int16)
    else
      var s2 := Write(s1, Addr(St), (CurStep(s) + 1) as int16);
      Write(s2, Addr(Dh), 0)
  }

  /** Inside the step: the elapsed time advances and, with ramping enabled,
      the setpoint moves towards the next step's. */
  function WithinStep(s: Store): (s': Store)
    requires ValidStore(s) && Running(s) && Elapsed(s) < StepDuration(s)
    ensures ValidStore(s')
    ensures forall a: uint8 :: !SchedulerWord(a) ==> Read(s', a) == Read(s, a)
    ensures ReadParam(s', Rn) == ReadParam(s, Rn) && ReadParam(s', St) == ReadParam(s, St)
    ensures ReadParam(s', Dh) == ToInt16(Elapsed(s))
    ensures ReadParam(s, RP) == 0 ==> ReadParam(s', SP) == ReadParam(s, SP)
    ensures ReadParam(s, RP) != 0 ==>
              ReadParam(s', SP) == RampSetpoint(Elapsed(s), StepDuration(s), StepSetpoint(s), NextSetpoint(s))
  {
    if ReadParam(s, RP) != 0 then
      var sp := RampSetpoint(Elapsed(s), StepDuration(s), StepSetpoint(s), NextSetpoint(s));
      Write(Write(s, Addr(SP), sp), Addr(Dh), ToInt16(Elapsed(s)))
    else
      Write(s, Addr(Dh), ToInt16(Elapsed(s)))
  }

  /** One call of the profile update. */
  function UpdateProfile(s: Store): (s': Store)
    requires ValidStore(s)
    ensures ValidStore(s')
    // only the setpoint, step, elapsed-time and run-mode words ever change
    ensures forall a: uint8 :: a != Addr(SP) && a != Addr(St) && a != Addr(Dh) && a != Addr(Rn) ==>
              Read(s', a) == Read(s, a)
    // thermostat mode: nothing happens
    ensures !Running(s) ==> s' == s
    // end of the step: the setpoint becomes the next step's setpoint, then
    // either the profile ends (elapsed time untouched) or the next step starts
    ensures Running(s) && Elapsed(s) >= StepDuration(s) ==>
              && ReadParam(s', SP) == NextSetpoint(s)
              && (LastStep(s) ==>
                    ReadParam(s', Rn) == ThermostatMode as int16
                    && ReadParam(s', St) == ReadParam(s, St)
                    && ReadParam(s', Dh) == ReadParam(s, Dh))
              && (!LastStep(s) ==>
                    ReadParam(s', Rn) == ReadParam(s, Rn)
                    && ReadParam(s', St) == (CurStep(s) + 1) as int16
                    && ReadParam(s', Dh) == 0)
    // inside the step: elapsed time advances, the setpoint ramps if enabled
    ensures Running(s) && Elapsed(s) < StepDuration(s) ==>
              && ReadParam(s', Rn) == ReadParam(s, Rn)
              && ReadParam(s', St) == ReadParam(s, St)
              && ReadParam(s', Dh) == ToInt16(Elapsed(s))
              && (ReadParam(s, RP) == 0 ==> ReadParam(s', SP) == ReadParam(s, SP))
              && (ReadParam(s, RP) != 0 ==>
                    ReadParam(s', SP) == RampSetpoint(Elapsed(s), StepDuration(s), StepSetpoint(s), NextSetpoint(s))
                    && Min(StepSetpoint(s), NextSetpoint(s)) <= ReadParam(s', SP)
                    && ReadParam(s', SP) <= Max(StepSetpoint(s), NextSetpoint(s)))
  {
    if !Running(s) then s
    else if Elapsed(s) >= StepDuration(s) then EndStep(s)
    else WithinStep(s)
  }

  /** `n` successive scheduler calls. */
  function UpdateProfileN(s: Store, n: nat): (s': Store)
    requires ValidStore(s)
    ensures ValidStore(s')
    decreases n
  {
    if n == 0 then s else UpdateProfileN(UpdateProfile(s), n - 1)
  }

  /** A call inside the step keeps the profile, the step and its words, and
      adds one to the elapsed time. */
  lemma InsideStep(s: Store)
    requires ValidStore(s) && Running(s)
    requires 0 <= ReadParam(s, Dh) && ReadParam(s, Dh) + 1 < StepDuration(s) < 0x8000
    ensures var s1 := UpdateProfile(s);
      && Running(s1) && StepBase(s1) == StepBase(s)
      && ReadParam(s1, Dh) == ReadParam(s, Dh) + 1
      && ReadParam(s1, St) == ReadParam(s, St)
      && ReadParam(s1, Rn) == ReadParam(s, Rn)
      && StepDuration(s1) == StepDuration(s)
      && NextSetpoint(s1) == NextSetpoint(s)
      && LastStep(s1) == LastStep(s)
  {
    var s1 := UpdateProfile(s);
    var b := StepBase(s);
    assert Elapsed(s) == ReadParam(s, Dh) + 1;
    assert Read(s1, b + 1) == Read(s, b + 1);
    assert Read(s1, b + 2) == Read(s, b + 2);
    if CurStep(s) < NoOfTtPairs - 1 {
      assert Read(s1, b + 3) == Read(s, b + 3);
    }
  }

  /** A step of duration D entered with elapsed time e (0 <= e < D) ends
      after exactly D - e scheduler calls: the setpoint becomes the next
      step's, and (unless it was the last step) the step index advances and
      the elapsed time restarts at 0. */
  lemma {:induction false} StepLastsItsDuration(s: Store, n: nat)
    requires ValidStore(s) && Running(s)
    requires 0 <= ReadParam(s, St) < NoOfTtPairs - 1
    requires 0 <= ReadParam(s, Dh) && StepDuration(s) < 0x8000
    requires ReadParam(s, Dh) + n == StepDuration(s) && n >= 1
    ensures var s' := UpdateProfileN(s, n);
      && ReadParam(s', SP) == NextSetpoint(s)
      && (!LastStep(s) ==>
            ReadParam(s', St) == ReadParam(s, St) + 1
            && ReadParam(s', Dh) == 0
            && ReadParam(s', Rn) == ReadParam(s, Rn))
      && (LastStep(s) ==> ReadParam(s', Rn) == ThermostatMode as int16)
    decreases n
  {
    if n > 1 {
      var s1 := UpdateProfile(s);
      InsideStep(s);
      StepLastsItsDuration(s1, n - 1);
    }
  }

  /** The default first profile (16.0 degrees for 24 units, then 17.0),
      started at step 0: after 24 scheduler calls the setpoint is 17.0 and
      step 1 has begun. */
  lemma DefaultProfileScenario(s: Store)
    requires ValidStore(s)
    requires s[..ProfileSize] == ProfileDefaults
    requires ReadParam(s, Rn) == 0 && ReadParam(s, St) == 0 && ReadParam(s, Dh) == 0
    ensures ReadParam(UpdateProfileN(s, 24), SP) == 170
    ensures ReadParam(UpdateProfileN(s, 24), St) == 1
    ensures ReadParam(UpdateProfileN(s, 24), Dh) == 0
  {
    assert s[1] == s[..ProfileSize][1] == 24;
    assert s[2] == s[..ProfileSize][2] == 170;
    assert s[3] == s[..ProfileSize][3] == 24;
    assert Running(s) && CurStep(s) == 0 && StepBase(s) == 0;
    assert StepDuration(s) == 24 && NextSetpoint(s) == 170 && !LastStep(s);
    StepLastsItsDuration(s, 24);
  }

  // ---- prfl_task, its caller ---------------------------------------------

  datatype PrflResult = PrflResult(minuteCount: uint8, updated: bool, store: Store)

  /** The scheduler task, run once a minute: in minutes mode it updates the
      profile on every call, in hours mode on every 60th call. */
  function PrflTask(minuteCount: uint8, minutes: bool, s: Store): (r: PrflResult)
    requires ValidStore(s)
    ensures ValidStore(r.store)
    ensures r.store == if r.updated then UpdateProfile(s) else s
    ensures minutes ==> r.updated && r.minuteCount == 0
    ensures !minutes ==> Tick(r.minuteCount, r.updated) == Divide(minuteCount, 60)
  {
    if minutes then PrflResult(0, true, UpdateProfile(s))
    else
      var c := ToUint8(minuteCount + 1);
      if c >= 60 then PrflResult(0, true, UpdateProfile(s))
      else PrflResult(c, false, s)
  }
}
