/** The main tasks around the controllers: the slow PWM that drives the
    solid-state relay from the PID output (every 100 ms), the once-a-second
    control task with its probe-fault and setpoint alarms, fan control and
    PID gating, and the one-wire temperature conversion. */
module Control {
  import opened Ints
  import opened Layout
  import opened Config
  import opened Thermostat
  import opened Pid

  // ---- slow PWM ------------------------------------------------------------

  /** The PWM state: the output phase and the low- and high-time counters. */
  datatype Pwm = Pwm(on: bool, lowTimer: uint8, highTimer: uint8)

  const PwmStart := Pwm(true, 0, 0)

  /** The high time in 100 ms ticks: pid_out / 8 (arithmetic shift), as an
      unsigned 16-bit value. */
  function HighTime(pidOut: int16): (x: uint16)
    ensures 0 <= pidOut <= 1000 ==> x == pidOut / 8 <= 125
  {
    ToUint16(pidOut / 8)
  }

  datatype PwmStep = PwmStep(pwm: Pwm, ssr: bool)

  /** One 100 ms tick. The relay output follows the phase the tick starts
      in; a phase ends when its counter has run down, and the other counter
      is then loaded: the high time with pid_out / 8, the low time with
      125 - pid_out / 8 (both truncated to a byte). */
  function PidToTime(p: Pwm, pidOut: int16, pwrOn: bool): (r: PwmStep)
    ensures r.ssr == p.on
    // leaving the low phase needs a non-zero high time and power on
    ensures !p.on && r.pwm.on <==> !p.on && p.lowTimer == 0 && ToUint8(HighTime(pidOut)) > 0 && pwrOn
    // the high phase ends when the loaded low time is non-zero or power is off
    ensures p.on && !r.pwm.on <==> p.on && p.highTimer == 0 && (ToUint8(125 - HighTime(pidOut)) > 0 || !pwrOn)
    // for outputs in 0..1000 both loads lie in 0..125
    ensures 0 <= pidOut <= 1000 && !p.on && p.lowTimer == 0 ==> r.pwm.highTimer == pidOut / 8 <= 125
    ensures 0 <= pidOut <= 1000 && p.on && p.highTimer == 0 ==> r.pwm.lowTimer == 125 - pidOut / 8
  {
    var x := HighTime(pidOut);
    if !p.on then
      if p.lowTimer == 0 then
        var h := ToUint8(x);
        PwmStep(Pwm(h > 0 && pwrOn, p.lowTimer, h), false)
      else PwmStep(p.(lowTimer := p.lowTimer - 1), false)
    else
      if p.highTimer == 0 then
        var l := ToUint8(ToUint16(125 - x));
        ByteOfUint16(125 - x);
        PwmStep(Pwm(!(l > 0 || !pwrOn), l, p.highTimer), true)
      else PwmStep(p.(highTimer := p.highTimer - 1), true)
  }

  datatype PwmRun = PwmRun(pwm: Pwm, onTicks: nat)

  /** `n` ticks with a constant PID output; counts the ticks the relay is on. */
  function RunPwm(p: Pwm, pidOut: int16, pwrOn: bool, n: nat): PwmRun
    decreases n
  {
    if n == 0 then PwmRun(p, 0)
    else
      var s := PidToTime(p, pidOut, pwrOn);
      var rest := RunPwm(s.pwm, pidOut, pwrOn, n - 1);
      PwmRun(rest.pwm, rest.onTicks + (if s.ssr then 1 else 0))
  }

  lemma {:induction false} RunPwmSplit(p: Pwm, pidOut: int16, pwrOn: bool, a: nat, b: nat)
    ensures var first := RunPwm(p, pidOut, pwrOn, a);
      var second := RunPwm(first.pwm, pidOut, pwrOn, b);
      RunPwm(p, pidOut, pwrOn, a + b) == PwmRun(second.pwm, first.onTicks + second.onTicks)
    decreases a
  {
    if a > 0 {
      RunPwmSplit(PidToTime(p, pidOut, pwrOn).pwm, pidOut, pwrOn, a - 1, b);
    }
  }

  /** The low phase counts its timer down with the relay off. */
  lemma {:induction false} LowPhase(l: nat, h: uint8, pidOut: int16, pwrOn: bool)
    requires l < 0x100
    ensures RunPwm(Pwm(false, l, h), pidOut, pwrOn, l) == PwmRun(Pwm(false, 0, h), 0)
    decreases l
  {
    if l > 0 {
      LowPhase(l - 1, h, pidOut, pwrOn);
    }
  }

  /** The high phase keeps the relay on for its timer plus one tick, then
      loads the low time. */
  lemma {:induction false} HighPhase(h: nat, l: uint8, pidOut: int16)
    requires h < 0x100
    requires 0 <= pidOut <= 1000 && pidOut / 8 < 125
    ensures RunPwm(Pwm(true, l, h), pidOut, true, h + 1) == PwmRun(Pwm(false, 125 - pidOut / 8, 0), h + 1)
    decreases h
  {
    if h > 0 {
      HighPhase(h - 1, l, pidOut);
    }
  }

  /** With power on and 8 <= pid_out < 1000 the relay runs a 127-tick cycle
      (12.7 s) and is on for pid_out / 8 + 1 of those ticks. */
  lemma PwmCycle(h: uint8, pidOut: int16)
    requires 8 <= pidOut < 1000
    ensures RunPwm(Pwm(false, 0, h), pidOut, true, 127) == PwmRun(Pwm(false, 0, 0), pidOut / 8 + 1)
  {
    var x := pidOut / 8;
    var p0 := Pwm(false, 0, h);
    var p1 := PidToTime(p0, pidOut, true).pwm;
    assert p1 == Pwm(true, 0, x);
    assert RunPwm(p0, pidOut, true, 1) == PwmRun(p1, 0);
    HighPhase(x, 0, pidOut);
    LowPhase(125 - x, 0, pidOut, true);
    RunPwmSplit(p1, pidOut, true, x + 1, 125 - x);
    RunPwmSplit(p0, pidOut, true, 1, 126);
  }

  /** With power off the relay, once off, stays off. */
  lemma {:induction false} PowerOffStaysOff(p: Pwm, pidOut: int16, n: nat)
    requires !p.on
    ensures !RunPwm(p, pidOut, false, n).pwm.on && RunPwm(p, pidOut, false, n).onTicks == 0
    decreases n
  {
    if n > 0 {
      PowerOffStaysOff(PidToTime(p, pidOut, false).pwm, pidOut, n - 1);
    }
  }

  // ---- one-wire conversion -------------------------------------------------

  /** The one-wire task alternates between starting a conversion and reading
      the result. */
  datatype OneWirePhase = StartConversion | ReadResult

  datatype OneWire = OneWire(phase: OneWirePhase, reading: int16)

  /** Sensor units (1/16 degree) to tenths of a degree: (5 * raw + 4) >> 3,
      in 16 bits. */
  function SixteenthsToTenths(raw: int16): (t: int16)
    ensures -6553 <= raw <= 6552 ==> t == (5 * raw + 4) / 8
    ensures -6553 <= raw <= 6552 ==> -8 < 16 * t - 10 * raw <= 8
  {
    ToInt16(ToInt16(ToInt16(5 * raw) + 4) / 8)
  }

  /** One call: a read phase converts the sensor value `raw`, and the phase
      alternates. */
  function OneWireTask(w: OneWire, raw: int16): (w': OneWire)
    ensures w'.phase != w.phase
    ensures w.phase == StartConversion ==> w'.reading == w.reading
    ensures w.phase == ReadResult ==> w'.reading == SixteenthsToTenths(raw)
  {
    match w.phase
    case StartConversion => OneWire(ReadResult, w.reading)
    case ReadResult => OneWire(StartConversion, SixteenthsToTenths(raw))
  }

  // ---- setpoint alarm --------------------------------------------------------

  /** The setpoint alarm for a non-zero SA: with SA > 0 it sounds when the
      temperature is at least SA away from the setpoint, with SA < 0 when it
      is within -SA of it. Differences are taken in 16 bits. */
  function SetpointAlarm(sa: int16, temp: int16, sp: int16): (alarm: bool)
    requires sa != 0
    ensures InInt16(temp - sp) && temp - sp != -0x8000 && sa != -0x8000 ==>
              (sa > 0 ==> (alarm <==> Abs(temp - sp) >= sa))
              && (sa < 0 ==> (alarm <==> Abs(temp - sp) <= -sa))
  {
    var diff := ToInt16(temp - sp);
    var diff' := if diff < 0 then ToInt16(-(diff as int)) else diff;
    if sa < 0 then diff' <= ToInt16(-(sa as int)) else diff' >= sa
  }

  function Abs(x: int): nat { if x < 0 then -x else x }

  // ---- the control task ------------------------------------------------------

  /** Everything the once-a-second task keeps between calls. */
  datatype Ctrl = Ctrl(thermo: Thermostat.Control, pidCtl: PidControlState, pidOut: int16,
                       alarm: bool, fan: bool, oneWire: OneWire)

  /** Inputs of one call: the analog probes and their range errors, the
      one-wire sensor value, the power flag, the time base of the profile
      scheduler, the UART override of the PID output, and the rounded
      floating-point PID gains. */
  datatype Inputs = Inputs(ntc1: int16, ntc2: int16, adErr1: bool, adErr2: bool, owRaw: int16,
                           pwrOn: bool, minutes: bool, pidSwitch: bool, pidFixed: int16,
                           kiRounded: int32, kdRounded: int32)

  predicate Probe2(s: Store)
    requires ValidStore(s)
  {
    ReadParam(s, Pb2) != 0
  }

  predicate ProbeFault(i: Inputs, s: Store)
    requires ValidStore(s)
  {
    i.adErr1 || (i.adErr2 && Probe2(s))
  }

  /** Fan control from the one-wire temperature: on at or above FHi, off at
      or below FLo, otherwise unchanged. */
  function FanControl(fan: bool, ow: int16, s: Store): (fan': bool)
    requires ValidStore(s)
    ensures ow >= ReadParam(s, FHi) ==> fan'
    ensures ow < ReadParam(s, FHi) && ow <= ReadParam(s, FLo) ==> !fan'
    ensures ow < ReadParam(s, FHi) && ow > ReadParam(s, FLo) ==> fan' == fan
  {
    if ow >= ReadParam(s, FHi) then true
    else if ow <= ReadParam(s, FLo) then false
    else fan
  }

  /** One call of the control task. */
  function CtrlTask(c: Ctrl, i: Inputs, s: Store): (c': Ctrl)
    requires ValidStore(s)
    // a probe fault: alarm on, relays off, both delays 60 s, and neither the
    // thermostat nor the PID runs
    ensures ProbeFault(i, s) ==>
              && c'.alarm && c'.thermo.relays == RelaysOff
              && c'.thermo.delays == Delays(60, 60)
              && c'.thermo.pidEnabled == c.thermo.pidEnabled
              && c'.thermo.setpoint == c.thermo.setpoint
              && c'.pidCtl == c.pidCtl && c'.pidOut == c.pidOut && c'.fan == c.fan
    // otherwise the thermostat runs on probe 1
    ensures !ProbeFault(i, s) ==>
              c'.thermo == TemperatureControl(c.thermo, Sensors(i.ntc1, i.ntc2, Probe2(s)), i.pwrOn, s)
    // the setpoint alarm: silent with SA = 0, else decided against the
    // cached setpoint (minutes time base) or the stored one (hours)
    ensures !ProbeFault(i, s) && ReadParam(s, SA) == 0 ==> !c'.alarm
    ensures !ProbeFault(i, s) && ReadParam(s, SA) != 0 ==>
              c'.alarm == SetpointAlarm(ReadParam(s, SA), i.ntc1,
                                        if i.minutes then c.thermo.setpoint else ReadParam(s, SP))
    // fan control only when enabled
    ensures !ProbeFault(i, s) && ToUint8(ReadParam(s, FAn)) == 0 ==> c'.fan == c.fan
    ensures !ProbeFault(i, s) && ToUint8(ReadParam(s, FAn)) != 0 ==>
              c'.fan == FanControl(c.fan, c.oneWire.reading, s)
    // PID gating: Ts = 0 forces the output to 0, the UART override wins
    ensures !ProbeFault(i, s) && i.pidSwitch ==> c'.pidOut == i.pidFixed
    ensures !ProbeFault(i, s) && !i.pidSwitch && ToUint8(ReadParam(s, Ts)) == 0 ==> c'.pidOut == 0
    ensures !ProbeFault(i, s) && !i.pidSwitch && ToUint8(ReadParam(s, Ts)) != 0 ==>
              c'.pidOut == PidControl(c.pidCtl, i.ntc1, c'.thermo.setpoint, ToUint8(ReadParam(s, Ts)),
                                      s, c.pidOut, i.kiRounded, i.kdRounded).pidOut
    // the PID wrapper keeps its state when Ts = 0 and otherwise advances it
    ensures !ProbeFault(i, s) && ToUint8(ReadParam(s, Ts)) == 0 ==> c'.pidCtl == c.pidCtl
    ensures !ProbeFault(i, s) && ToUint8(ReadParam(s, Ts)) != 0 ==>
              c'.pidCtl == PidControl(c.pidCtl, i.ntc1, c'.thermo.setpoint, ToUint8(ReadParam(s, Ts)),
                                      s, c.pidOut, i.kiRounded, i.kdRounded).ctl
    // the one-wire task runs either way
    ensures c'.oneWire == OneWireTask(c.oneWire, i.owRaw)
  {
    var ow := OneWireTask(c.oneWire, i.owRaw);
    if ProbeFault(i, s) then
      var t := c.thermo.(relays := RelaysOff, delays := Delays(60, 60));
      Ctrl(t, c.pidCtl, c.pidOut, true, c.fan, ow)
    else
      var ts := ToUint8(ReadParam(s, Ts));
      var sa := ReadParam(s, SA);
      var temp := i.ntc1;
      var fan := if ToUint8(ReadParam(s, FAn)) != 0 then FanControl(c.fan, c.oneWire.reading, s) else c.fan;
      var alarm :=
        if sa != 0 then SetpointAlarm(sa, temp, if i.minutes then c.thermo.setpoint else ReadParam(s, SP))
        else false;
      var thermo := TemperatureControl(c.thermo, Sensors(temp, i.ntc2, Probe2(s)), i.pwrOn, s);
      var pidRun := if ts == 0 then PidControlResult(c.pidCtl, 0, false)
                    else PidControl(c.pidCtl, temp, thermo.setpoint, ts, s, c.pidOut, i.kiRounded, i.kdRounded);
      var out := if i.pidSwitch then i.pidFixed else pidRun.pidOut;
      Ctrl(thermo, pidRun.ctl, out, alarm, fan, ow)
  }
}
