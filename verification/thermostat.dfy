/** The two-relay thermostat: the level-based controller the firmware runs
    once a second, and the seven-state transition diagram it also contains.
    Relays are two booleans; the compressor-protection delays are 16-bit
    second countdowns. */
module Thermostat {
  import opened Ints
  import opened Layout
  import opened Config

  datatype Relays = Relays(heat: bool, cool: bool)

  const RelaysOff := Relays(false, false)

  datatype Delays = Delays(heating: uint16, cooling: uint16)

  /** What the probes report this second. */
  datatype Sensors = Sensors(temp: int16, ntc2: int16, probe2: bool)

  /** A delay parameter in minutes as seconds, computed as m * 64 - m * 4 in
      16 bits. */
  function MinToSec(m: int16): (secs: uint16)
    ensures 0 <= m < 1024 ==> secs == 60 * m
  {
    var r := ToUint16(m * 64);
    r - r / 16
  }

  /** The reload values for both delays: the heating and cooling delay
      parameters in seconds. */
  function ReloadDelays(s: Store): (d: Delays)
    requires ValidStore(s)
    ensures 0 <= ReadParam(s, Hd) <= 60 ==> d.heating == 60 * ReadParam(s, Hd)
    ensures 0 <= ReadParam(s, Cd) <= 60 ==> d.cooling == 60 * ReadParam(s, Cd)
  {
    Delays(MinToSec(ReadParam(s, Hd)), MinToSec(ReadParam(s, Cd)))
  }

  /** One second off each running delay; an expired delay stays at zero. */
  function CountDown(d: Delays): (d': Delays)
    ensures d'.heating == if d.heating == 0 then 0 else d.heating - 1
    ensures d'.cooling == if d.cooling == 0 then 0 else d.cooling - 1
  {
    Delays(if d.heating > 0 then d.heating - 1 else 0,
           if d.cooling > 0 then d.cooling - 1 else 0)
  }

  // ---- the level-based controller ------------------------------------------

  /** State the controller keeps across calls: the relays, the delays, the
      PID enable flag and its cached copies of the setpoint and the two
      hysteresis parameters. */
  datatype Control = Control(relays: Relays, delays: Delays, pidEnabled: bool,
                             setpoint: int16, hysteresis: int16, hysteresis2: int16)

  /** The condition that switches everything off: power off, or an active
      relay's target reached (the cooling side also stops when the second
      probe is below sp - hy2, the heating side when it is above sp + hy2). */
  predicate StopCondition(r: Relays, x: Sensors, pwrOn: bool, sp: int, hy2: int)
  {
    || !pwrOn
    || (r.cool && (x.temp <= sp || (x.probe2 && x.ntc2 < sp - hy2)))
    || (r.heat && (x.temp >= sp || (x.probe2 && x.ntc2 > sp + hy2)))
  }

  /** Conditions to start cooling and heating from idle; the second probe's
      margin is half the configured second hysteresis. */
  predicate WantsCooling(x: Sensors, sp: int, hy: int, halfHy2: int)
  {
    x.temp > sp + hy && (!x.probe2 || x.ntc2 >= sp - halfHy2)
  }

  predicate WantsHeating(x: Sensors, sp: int, hy: int, halfHy2: int)
  {
    x.temp < sp - hy && (!x.probe2 || x.ntc2 <= sp + halfHy2)
  }

  /** One call of the thermostat. */
  function TemperatureControl(c: Control, x: Sensors, pwrOn: bool, s: Store): (c': Control)
    requires ValidStore(s)
    // the cached parameters are refreshed from the store
    ensures c'.setpoint == ReadParam(s, SP) && c'.hysteresis == ReadParam(s, Hy)
    // stopping: both relays off, delays reloaded, PID disabled
    ensures StopCondition(c.relays, x, pwrOn, ReadParam(s, SP), ReadParam(s, Hy2)) ==>
              c'.relays == RelaysOff && c'.delays == ReloadDelays(s) && !c'.pidEnabled
    ensures !StopCondition(c.relays, x, pwrOn, ReadParam(s, SP), ReadParam(s, Hy2)) ==>
              c'.delays == CountDown(c.delays)
    // a running relay keeps running until its stop condition holds
    ensures !StopCondition(c.relays, x, pwrOn, ReadParam(s, SP), ReadParam(s, Hy2)) && (c.relays.heat || c.relays.cool) ==>
              c'.relays == c.relays && c'.pidEnabled == c.pidEnabled
    // from idle a relay only switches on once its delay has run out
    ensures !c.relays.cool && c'.relays.cool ==> c'.delays.cooling == 0
    ensures !c.relays.heat && c'.relays.heat ==> c'.delays.heating == 0 && c'.pidEnabled
    // from idle, a relay switches on exactly when it is wanted and its delay
    // has run out this second
    ensures !StopCondition(c.relays, x, pwrOn, ReadParam(s, SP), ReadParam(s, Hy2)) && c.relays == RelaysOff ==>
              (c'.relays.cool <==> WantsCooling(x, ReadParam(s, SP), ReadParam(s, Hy), ReadParam(s, Hy2) / 2)
                                   && CountDown(c.delays).cooling == 0)
    ensures !StopCondition(c.relays, x, pwrOn, ReadParam(s, SP), ReadParam(s, Hy2)) && c.relays == RelaysOff ==>
              (c'.relays.heat <==> WantsHeating(x, ReadParam(s, SP), ReadParam(s, Hy), ReadParam(s, Hy2) / 2)
                                   && CountDown(c.delays).heating == 0)
    // from idle, the PID flag: switching heating on sets it, otherwise a
    // wanted cooling clears it (even while its delay runs), else it is kept
    ensures !StopCondition(c.relays, x, pwrOn, ReadParam(s, SP), ReadParam(s, Hy2)) && c.relays == RelaysOff && !c'.relays.heat ==>
              c'.pidEnabled == (c.pidEnabled && !WantsCooling(x, ReadParam(s, SP), ReadParam(s, Hy), ReadParam(s, Hy2) / 2))
    // from idle the cached second hysteresis is left halved
    ensures !StopCondition(c.relays, x, pwrOn, ReadParam(s, SP), ReadParam(s, Hy2)) && c.relays == RelaysOff ==>
              c'.hysteresis2 == ReadParam(s, Hy2) / 2
    // with a non-negative hysteresis the relays are never both on
    ensures ReadParam(s, Hy) >= 0 && !(c.relays.heat && c.relays.cool) ==> !(c'.relays.heat && c'.relays.cool)
  {
    var sp := ReadParam(s, SP);
    var hy := ReadParam(s, Hy);
    var hy2 := ReadParam(s, Hy2);
    var delays := CountDown(c.delays);
    if StopCondition(c.relays, x, pwrOn, sp, hy2) then
      Control(RelaysOff, ReloadDelays(s), false, sp, hy, hy2)
    else if !c.relays.heat && !c.relays.cool then
      var half := hy2 / 2;
      var cooling := WantsCooling(x, sp, hy, half);
      var heating := WantsHeating(x, sp, hy, half);
      // starting cooling disables the PID; starting heating (once its delay
      // has expired) enables it, and is evaluated second
      var pid := if heating && delays.heating == 0 then true
                 else if cooling then false
                 else c.pidEnabled;
      Control(Relays(heating && delays.heating == 0, cooling && delays.cooling == 0),
              delays, pid, sp, hy, half)
    else
      Control(c.relays, delays, c.pidEnabled, sp, hy, hy2)
  }

  /** With hysteresis at least zero, cooling and heating are never both
      wanted: one needs the temperature above sp + hy, the other below
      sp - hy. */
  lemma WantsAreExclusive(x: Sensors, sp: int, hy: int, halfHy2: int)
    requires hy >= 0
    ensures !(WantsCooling(x, sp, hy, halfHy2) && WantsHeating(x, sp, hy, halfHy2))
  {
  }

  /** With a negative hysteresis a temperature at the setpoint asks for
      both: the exclusion above needs its precondition. */
  lemma NegativeHysteresisWantsBoth()
    ensures WantsCooling(Sensors(200, 0, false), 200, -1, 0)
    ensures WantsHeating(Sensors(200, 0, false), 200, -1, 0)
  {
  }

  // ---- the transition-diagram controller ---------------------------------

  datatype TcState = Off | DelayHeat | DelayCool | Heating | Cooling | EnvCool | EnvWarm

  /** The states that belong to the heating side and the cooling side. */
  predicate HeatSide(q: TcState) { q == DelayHeat || q == EnvWarm || q == Heating }
  predicate CoolSide(q: TcState) { q == DelayCool || q == EnvCool || q == Cooling }

  datatype Diagram = Diagram(state: TcState, relays: Relays, delays: Delays)

  /** The delay countdown of the delay states. The firmware decrements and
      then tests for zero, so a delay that is already zero wraps to 65535
      (`saturate` false); the corrected countdown expires at once. Returns
      the new delay and whether it has expired. */
  function Decrement(d: uint16, saturate: bool): (r: (uint16, bool))
    ensures r.1 <==> r.0 == 0
    ensures d > 0 ==> r.0 == d - 1
    ensures d == 0 ==> r.0 == (if saturate then 0 else 0xFFFF)
  {
    if saturate && d == 0 then (0, true)
    else var d' := ToUint16(d - 1); (d', d' == 0)
  }

  /** One call of the transition diagram. */
  function Tc2Step(t: Diagram, x: Sensors, s: Store, saturate: bool): (t': Diagram)
    requires ValidStore(s)
    // the heating side moves only within itself or to Off, and so does the
    // cooling side
    ensures HeatSide(t.state) ==> HeatSide(t'.state) || t'.state == Off
    ensures CoolSide(t.state) ==> CoolSide(t'.state) || t'.state == Off
    // Off clears both relays and reloads both delays
    ensures t.state == Off ==> t'.relays == RelaysOff && t'.delays == ReloadDelays(s)
    // only the Heating and Cooling states switch a relay on
    ensures t'.relays.heat && !t.relays.heat ==> t.state == Heating
    ensures t'.relays.cool && !t.relays.cool ==> t.state == Cooling
  {
    var sp := ReadParam(s, SP);
    var hy := ReadParam(s, Hy);
    var hy2 := ReadParam(s, Hy2);
    match t.state
    case Off =>
      var next :=
        if x.temp > sp + hy then
          (if x.probe2 && x.ntc2 < sp - hy2 then EnvCool else DelayCool)
        else if x.temp < sp - hy then
          (if x.probe2 && x.ntc2 > sp + hy2 then EnvWarm else DelayHeat)
        else Off;
      Diagram(next, RelaysOff, ReloadDelays(s))
    case DelayHeat =>
      if x.temp >= sp || x.probe2 then t.(state := Off)
      else
        var (d, expired) := Decrement(t.delays.heating, saturate);
        Diagram(if expired then Heating else DelayHeat, t.relays, t.delays.(heating := d))
    case EnvWarm =>
      if x.temp >= sp || !x.probe2 || x.ntc2 < sp + hy2 then t.(state := Off) else t
    case DelayCool =>
      if x.temp <= sp || x.probe2 then t.(state := Off)
      else
        var (d, expired) := Decrement(t.delays.cooling, saturate);
        Diagram(if expired then Cooling else DelayCool, t.relays, t.delays.(cooling := d))
    case EnvCool =>
      if x.temp <= sp || !x.probe2 || x.ntc2 > sp - hy2 then t.(state := Off) else t
    case Heating =>
      var r := t.relays.(heat := true);
      if x.temp >= sp then Diagram(Off, r, t.delays)
      else if x.probe2 && x.ntc2 > sp + hy2 then Diagram(EnvWarm, r, t.delays)
      else Diagram(Heating, r, t.delays)
    case Cooling =>
      var r := t.relays.(cool := true);
      if x.temp <= sp then Diagram(Off, r, t.delays)
      else if x.probe2 && x.ntc2 < sp - hy2 then Diagram(EnvCool, r, t.delays)
      else Diagram(Cooling, r, t.delays)
  }

  /** The diagram as the firmware writes it. */
  function TemperatureControl2AsWritten(t: Diagram, x: Sensors, s: Store): (t': Diagram)
    requires ValidStore(s)
    ensures HeatSide(t.state) ==> HeatSide(t'.state) || t'.state == Off
    ensures CoolSide(t.state) ==> CoolSide(t'.state) || t'.state == Off
  {
    Tc2Step(t, x, s, false)
  }

  /** The diagram with a delay of zero expiring at once. */
  function TemperatureControl2(t: Diagram, x: Sensors, s: Store): (t': Diagram)
    requires ValidStore(s)
    ensures HeatSide(t.state) ==> HeatSide(t'.state) || t'.state == Off
    ensures CoolSide(t.state) ==> CoolSide(t'.state) || t'.state == Off
  {
    Tc2Step(t, x, s, true)
  }

  /** A relay is only on in its own side's active states or in Off (which
      clears it on the next call), and never both at once. */
  predicate RelaysConsistent(t: Diagram)
  {
    && (t.relays.heat ==> t.state == Heating || t.state == EnvWarm || t.state == Off)
    && (t.relays.cool ==> t.state == Cooling || t.state == EnvCool || t.state == Off)
    && !(t.relays.heat && t.relays.cool)
  }

  lemma Tc2KeepsRelaysConsistent(t: Diagram, x: Sensors, s: Store, saturate: bool)
    requires ValidStore(s) && RelaysConsistent(t)
    ensures RelaysConsistent(Tc2Step(t, x, s, saturate))
  {
  }

  /** What one call of the diagram sees: the probes and the store. */
  datatype Tick = Tick(x: Sensors, s: Store)

  predicate ValidTicks(ticks: seq<Tick>)
  {
    forall i :: 0 <= i < |ticks| ==> ValidStore(ticks[i].s)
  }

  /** One call per tick, each with that tick's inputs. */
  function Tc2Run(t: Diagram, ticks: seq<Tick>, saturate: bool): Diagram
    requires ValidTicks(ticks)
    decreases |ticks|
  {
    if ticks == [] then t
    else Tc2Run(Tc2Step(t, ticks[0].x, ticks[0].s, saturate), ticks[1..], saturate)
  }

  /** Relays are never both on, however long the diagram runs from a
      consistent state and whatever the probes and the store do meanwhile. */
  lemma {:induction false} Tc2RunKeepsRelaysConsistent(t: Diagram, ticks: seq<Tick>, saturate: bool)
    requires ValidTicks(ticks) && RelaysConsistent(t)
    ensures RelaysConsistent(Tc2Run(t, ticks, saturate))
    decreases |ticks|
  {
    if ticks != [] {
      Tc2KeepsRelaysConsistent(t, ticks[0].x, ticks[0].s, saturate);
      Tc2RunKeepsRelaysConsistent(Tc2Step(t, ticks[0].x, ticks[0].s, saturate), ticks[1..], saturate);
    }
  }

  /** A tick on which the temperature stays below the setpoint, with no
      second probe. */
  predicate TooCold(k: Tick)
  {
    ValidStore(k.s) && k.x.temp < ReadParam(k.s, SP) && !k.x.probe2
  }

  predicate TooWarm(k: Tick)
  {
    ValidStore(k.s) && k.x.temp > ReadParam(k.s, SP) && !k.x.probe2
  }

  /** With the corrected countdown, a heating delay of d seconds ends in the
      Heating state after max(d, 1) calls that all find it too cold. */
  lemma {:induction false} DelayHeatReachesHeating(t: Diagram, ticks: seq<Tick>)
    requires t.state == DelayHeat
    requires |ticks| == if t.delays.heating == 0 then 1 else t.delays.heating as int
    requires forall i :: 0 <= i < |ticks| ==> TooCold(ticks[i])
    ensures ValidTicks(ticks) && Tc2Run(t, ticks, true).state == Heating
    decreases |ticks|
  {
    assert TooCold(ticks[0]);
    var t1 := Tc2Step(t, ticks[0].x, ticks[0].s, true);
    var rest := ticks[1..];
    assert forall i :: 0 <= i < |rest| ==> TooCold(rest[i]) by {
      forall i | 0 <= i < |rest| ensures TooCold(rest[i]) { assert rest[i] == ticks[i + 1]; }
    }
    if t.delays.heating > 1 {
      assert t1.state == DelayHeat && t1.delays.heating == t.delays.heating - 1;
      DelayHeatReachesHeating(t1, rest);
    } else {
      assert rest == [];
    }
  }

  /** As written, a heating delay that is already zero does not expire:
      the countdown wraps to 65535 and the diagram stays in DelayHeat. */
  lemma ZeroDelayWraps(t: Diagram, x: Sensors, s: Store)
    requires ValidStore(s)
    requires t.state == DelayHeat && t.delays.heating == 0
    requires x.temp < ReadParam(s, SP) && !x.probe2
    ensures TemperatureControl2AsWritten(t, x, s).state == DelayHeat
    ensures TemperatureControl2AsWritten(t, x, s).delays.heating == 0xFFFF
    ensures TemperatureControl2(t, x, s).state == Heating
  {
  }

  /** Too cold with no second probe and hy >= 0, Off moves to DelayHeat. */
  lemma OffTooCold(t: Diagram, x: Sensors, s: Store, saturate: bool)
    requires ValidStore(s) && t.state == Off && !x.probe2
    requires ReadParam(s, Hy) >= 0 && x.temp < ReadParam(s, SP) - ReadParam(s, Hy)
    ensures Tc2Step(t, x, s, saturate).state == DelayHeat
  {
    var sp: int := ReadParam(s, SP);
    var hy: int := ReadParam(s, Hy);
    assert !(x.temp > sp + hy);
  }

  /** With the heating delay parameter at 0 the Off state loads a zero
      delay, so the as-written diagram reaches DelayHeat with nothing left
      to count. */
  lemma ZeroParameterGivesZeroDelay(x: Sensors, s: Store)
    requires ValidStore(s)
    requires ReadParam(s, Hd) == 0 && ReadParam(s, Hy) >= 0
    requires x.temp < ReadParam(s, SP) - ReadParam(s, Hy) && !x.probe2
    ensures var t1 := TemperatureControl2AsWritten(Diagram(Off, RelaysOff, Delays(0, 0)), x, s);
      t1.state == DelayHeat && t1.delays.heating == 0
  {
    OffTooCold(Diagram(Off, RelaysOff, Delays(0, 0)), x, s, false);
    ZeroHeatingReload(s);
  }

  lemma ZeroHeatingReload(s: Store)
    requires ValidStore(s) && ReadParam(s, Hd) == 0
    ensures ReloadDelays(s).heating == 0
  {
  }

  /** The cooling side mirrors the heating side: with the corrected
      countdown a cooling delay of d seconds ends in the Cooling state after
      max(d, 1) calls that all find it too warm. */
  lemma {:induction false} DelayCoolReachesCooling(t: Diagram, ticks: seq<Tick>)
    requires t.state == DelayCool
    requires |ticks| == if t.delays.cooling == 0 then 1 else t.delays.cooling as int
    requires forall i :: 0 <= i < |ticks| ==> TooWarm(ticks[i])
    ensures ValidTicks(ticks) && Tc2Run(t, ticks, true).state == Cooling
    decreases |ticks|
  {
    assert TooWarm(ticks[0]);
    var t1 := Tc2Step(t, ticks[0].x, ticks[0].s, true);
    var rest := ticks[1..];
    assert forall i :: 0 <= i < |rest| ==> TooWarm(rest[i]) by {
      forall i | 0 <= i < |rest| ensures TooWarm(rest[i]) { assert rest[i] == ticks[i + 1]; }
    }
    if t.delays.cooling > 1 {
      assert t1.state == DelayCool && t1.delays.cooling == t.delays.cooling - 1;
      DelayCoolReachesCooling(t1, rest);
    } else {
      assert rest == [];
    }
  }

  /** As written, a cooling delay that is already zero wraps to 65535 and
      the diagram stays in DelayCool. */
  lemma ZeroCoolDelayWraps(t: Diagram, x: Sensors, s: Store)
    requires ValidStore(s)
    requires t.state == DelayCool && t.delays.cooling == 0
    requires x.temp > ReadParam(s, SP) && !x.probe2
    ensures TemperatureControl2AsWritten(t, x, s).state == DelayCool
    ensures TemperatureControl2AsWritten(t, x, s).delays.cooling == 0xFFFF
    ensures TemperatureControl2(t, x, s).state == Cooling
  {
  }
}
