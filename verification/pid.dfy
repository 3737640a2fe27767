/** The Takahashi type-C PID controller and the once-a-second wrapper that
    reloads its parameters and runs it every Ts seconds. */
module Pid {
  import opened Ints
  import opened Arith
  import opened Counter
  import opened Layout
  import opened Config

  /** Controller memory: the integer I and D gains and the two previous
      process values y[k-1] and y[k-2]. */
  datatype PidState = PidState(ki: int32, kd: int32, yk1: int16, yk2: int16)

  /** Controller initialisation. The gains Kc.Ts/Ti and Kc.Td/Ts are computed
      in floating point and rounded by the firmware; `kiRounded` and
      `kdRounded` are those rounded values. A zero Ti switches the I action
      off, a zero Ts the D action; both history samples start at the current
      temperature. */
  function InitPid(ti: uint16, ts: uint8, yk: uint16, kiRounded: int32, kdRounded: int32): (st: PidState)
    ensures st.ki == (if ti == 0 then 0 else kiRounded)
    ensures st.kd == (if ts == 0 then 0 else kdRounded)
    ensures st.yk1 == st.yk2 && (st.yk1 - yk) % 0x1_0000 == 0
  {
    PidState(if ti == 0 then 0 else kiRounded,
             if ts == 0 then 0 else kdRounded,
             ToInt16(yk), ToInt16(yk))
  }

  /** Output limiting: above `lim` gives `lim`, below zero gives zero. */
  function Clamp(u: int, lim: int): (r: int)
    ensures lim >= 0 ==> 0 <= r <= lim
    ensures 0 <= u <= lim ==> r == u
  {
    if u > lim then lim else if u < 0 then 0 else u
  }

  /** The type-C increment in exact arithmetic: P and D act on the process
      value only, I on the error. */
  function Increment(kc: int, ki: int, kd: int, yk: int, yk1: int, yk2: int, tset: int): int
  {
    kc * (yk1 - yk) + ki * (tset - yk) + kd * (2 * yk1 - yk - yk2)
  }

  /** The increment as the firmware computes it: the differences in 16-bit
      `int`, each product in 32 bits, the sum truncated to `int16_t`. */
  function IncrementAsComputed(kc: int16, st: PidState, yk: int16, tset: int16): (inc: int16)
    ensures (inc - Increment(kc, st.ki, st.kd, yk, st.yk1, st.yk2, tset)) % 0x1_0000 == 0
  {
    var d1 := ToInt16(st.yk1 - yk);
    var e := ToInt16(tset - yk);
    var d2 := ToInt16(2 * st.yk1 - yk - st.yk2);
    var kpi := ToInt32(kc * d1);
    var kii := ToInt32(st.ki * e);
    var kdi := ToInt32(st.kd * d2);
    IncrementWraps(kc, st, yk, tset, d1, e, d2, kpi, kii, kdi);
    ToInt16(kpi + kii + kdi)
  }

  /** Every intermediate truncation is congruent modulo 2^16 to the exact
      value, so the truncated sum is the exact increment modulo 2^16. */
  lemma IncrementWraps(kc: int16, st: PidState, yk: int16, tset: int16,
                       d1: int16, e: int16, d2: int16, kpi: int32, kii: int32, kdi: int32)
    requires d1 == ToInt16(st.yk1 - yk) && e == ToInt16(tset - yk) && d2 == ToInt16(2 * st.yk1 - yk - st.yk2)
    requires kpi == ToInt32(kc * d1) && kii == ToInt32(st.ki * e) && kdi == ToInt32(st.kd * d2)
    ensures (ToInt16(kpi + kii + kdi) - Increment(kc, st.ki, st.kd, yk, st.yk1, st.yk2, tset)) % 0x1_0000 == 0
  {
    var m := 0x1_0000;
    CongruentProduct(kc, d1, st.yk1 - yk);
    CongruentProduct(st.ki, e, tset - yk);
    CongruentProduct(st.kd, d2, 2 * st.yk1 - yk - st.yk2);
    assert (kpi - kc * d1) % m == 0 by { ModOfMultiple(kpi - kc * d1, 0x1_0000_0000, m); }
    assert (kii - st.ki * e) % m == 0 by { ModOfMultiple(kii - st.ki * e, 0x1_0000_0000, m); }
    assert (kdi - st.kd * d2) % m == 0 by { ModOfMultiple(kdi - st.kd * d2, 0x1_0000_0000, m); }
    var exact := Increment(kc, st.ki, st.kd, yk, st.yk1, st.yk2, tset);
    var sum := kpi + kii + kdi;
    SumOfCongruent(kpi - kc * d1, kii - st.ki * e, kdi - st.kd * d2,
                   kc * d1 - kc * (st.yk1 - yk), st.ki * e - st.ki * (tset - yk),
                   st.kd * d2 - st.kd * (2 * st.yk1 - yk - st.yk2));
    assert sum - exact == (kpi - kc * d1) + (kii - st.ki * e) + (kdi - st.kd * d2)
                          + (kc * d1 - kc * (st.yk1 - yk)) + (st.ki * e - st.ki * (tset - yk))
                          + (st.kd * d2 - st.kd * (2 * st.yk1 - yk - st.yk2));
    assert (ToInt16(sum) - sum) % m == 0;
    SumOfCongruent(ToInt16(sum) - sum, sum - exact, 0, 0, 0, 0);
  }

  lemma CongruentProduct(k: int, a: int, b: int)
    requires (a - b) % 0x1_0000 == 0
    ensures (k * a - k * b) % 0x1_0000 == 0
  {
    var q := (a - b) / 0x1_0000;
    assert a - b == 0x1_0000 * q;
    assert k * a - k * b == 0x1_0000 * (k * q);
  }

  lemma ModOfMultiple(x: int, big: int, m: int)
    requires big == 0x1_0000_0000 && m == 0x1_0000 && x % big == 0
    ensures x % m == 0
  {
    var q := x / big;
    assert x == m * (0x1_0000 * q);
  }

  lemma SumOfCongruent(a: int, b: int, c: int, d: int, e: int, f: int)
    requires a % 0x1_0000 == 0 && b % 0x1_0000 == 0 && c % 0x1_0000 == 0
    requires d % 0x1_0000 == 0 && e % 0x1_0000 == 0 && f % 0x1_0000 == 0
    ensures (a + b + c + d + e + f) % 0x1_0000 == 0
  {
    var m := 0x1_0000;
    assert a == m * (a / m) && b == m * (b / m) && c == m * (c / m);
    assert d == m * (d / m) && e == m * (e / m) && f == m * (f / m);
    assert a + b + c + d + e + f == m * (a / m + b / m + c / m + d / m + e / m + f / m);
  }

  datatype PidResult = PidResult(state: PidState, uk: int16)

  /** One controller step: add the increment to the output (in 16 bits),
      limit it to [0, lim] and shift the history. */
  function PidCtrl(kc: int16, st: PidState, uk: int16, yk: int16, tset: int16, lim: int16): (r: PidResult)
    ensures lim >= 0 ==> 0 <= r.uk <= lim
    ensures r.state == st.(yk1 := yk, yk2 := st.yk1)
  {
    var u := ToInt16(uk + IncrementAsComputed(kc, st, yk, tset));
    PidResult(st.(yk1 := yk, yk2 := st.yk1), Clamp(u, lim))
  }

  predicate InInt16(x: int) { -0x8000 <= x < 0x8000 }
  predicate InInt32(x: int) { -0x8000_0000 <= x < 0x8000_0000 }

  /** No intermediate of the step leaves its C type. */
  predicate NoOverflow(kc: int16, st: PidState, uk: int16, yk: int16, tset: int16)
  {
    && InInt16(st.yk1 - yk) && InInt16(tset - yk) && InInt16(2 * st.yk1 - yk - st.yk2)
    && InInt32(kc * (st.yk1 - yk)) && InInt32(st.ki * (tset - yk))
    && InInt32(st.kd * (2 * st.yk1 - yk - st.yk2))
    && InInt16(Increment(kc, st.ki, st.kd, yk, st.yk1, st.yk2, tset))
    && InInt16(uk + Increment(kc, st.ki, st.kd, yk, st.yk1, st.yk2, tset))
  }

  /** Without overflow the step is the exact type-C recurrence
      u[k] = clamp(u[k-1] + increment). */
  lemma PidCtrlIsTypeC(kc: int16, st: PidState, uk: int16, yk: int16, tset: int16, lim: int16)
    requires NoOverflow(kc, st, uk, yk, tset)
    ensures PidCtrl(kc, st, uk, yk, tset, lim).uk
              == Clamp(uk + Increment(kc, st.ki, st.kd, yk, st.yk1, st.yk2, tset), lim)
  {
    var exact := Increment(kc, st.ki, st.kd, yk, st.yk1, st.yk2, tset);
    var inc := IncrementAsComputed(kc, st, yk, tset);
    SmallMultipleIsZero(inc - exact, 0x1_0000);
  }

  /** With no error and a flat history the output only gets limited. */
  lemma SteadyStateHolds(kc: int16, st: PidState, uk: int16, yk: int16, lim: int16)
    requires st.yk1 == yk && st.yk2 == yk
    ensures PidCtrl(kc, st, uk, yk, yk, lim).uk == Clamp(uk, lim)
  {
    assert Increment(kc, st.ki, st.kd, yk, st.yk1, st.yk2, yk) == 0;
    PidCtrlIsTypeC(kc, st, uk, yk, yk, lim);
  }

  /** Right after initialisation at the setpoint, the first step leaves an
      in-range output unchanged. */
  lemma InitThenSteady(kc: int16, ti: uint16, ts: uint8, temp: int16, kiR: int32, kdR: int32, uk: int16, lim: int16)
    requires 0 <= uk <= lim
    ensures PidCtrl(kc, InitPid(ti, ts, ToUint16(temp), kiR, kdR), uk, temp, temp, lim).uk == uk
  {
    var st := InitPid(ti, ts, ToUint16(temp), kiR, kdR);
    SmallMultipleIsZero(st.yk1 - temp, 0x1_0000);
    SteadyStateHolds(kc, st, uk, temp, lim);
  }

  /** The heating-power output limit in tenths of a percent: the allowed
      power as a share of the element's rated power, or 100.0 % when no
      rating is set. */
  function PidLimit(hpLim: uint16, hpTot: uint16): (lim: int16)
    ensures hpTot == 0 ==> lim == 1000
    ensures 0 < hpTot && hpLim <= hpTot ==> 0 <= lim <= 1000 && lim == hpLim * 1000 / hpTot
  {
    if hpTot > 0 then
      var q := hpLim * 1000 / hpTot;
      LimitAtMost1000(hpLim, hpTot);
      ToInt16(q)
    else 1000
  }

  lemma LimitAtMost1000(hpLim: uint16, hpTot: uint16)
    requires hpTot > 0
    ensures 0 <= hpLim * 1000 / hpTot
    ensures hpLim <= hpTot ==> hpLim * 1000 / hpTot <= 1000
  {
    if hpLim <= hpTot {
      DivBelow(hpLim * 1000, hpTot, 1001);
    }
  }

  // ---- the once-a-second wrapper -------------------------------------------

  /** What the wrapper keeps: its copies of the Kc, Ti and Td parameters and
      of the two heating-power parameters, the controller, the output limit
      and the sample timer. */
  datatype PidControlState = PidControlState(
    kc: int16, ti: int16, td: int16, pid: PidState,
    hpLim: uint16, hpTot: uint16, pidLim: int16, timer: uint8)

  datatype PidControlResult = PidControlResult(ctl: PidControlState, pidOut: int16, ran: bool)

  /** The controller to run with: restarted from the current temperature
      (with freshly computed gains) when Kc, Ti or Td differ from the copies
      kept from the previous call, otherwise unchanged. */
  function CurrentPid(c: PidControlState, kc: int16, ti: int16, td: int16, ts: uint8, temp: int16,
                      kiRounded: int32, kdRounded: int32): (pid: PidState)
    ensures c.kc != kc || c.ti != ti || c.td != td ==>
              pid == InitPid(ToUint16(ti), ts, ToUint16(temp), kiRounded, kdRounded) && pid.yk1 == temp && pid.yk2 == temp
    ensures c.kc == kc && c.ti == ti && c.td == td ==> pid == c.pid
  {
    if c.kc != kc || c.ti != ti || c.td != td then
      var pid := InitPid(ToUint16(ti), ts, ToUint16(temp), kiRounded, kdRounded);
      SmallMultipleIsZero(pid.yk1 - temp, 0x1_0000);
      pid
    else c.pid
  }

  /** One call: reinitialise the controller when Kc, Ti or Td changed in the
      store, recompute the limit when a power parameter changed, and run a
      controller step every Ts-th call. `kiRounded` and `kdRounded` are the
      rounded floating-point gains for the parameters in the store. */
  function PidControl(c: PidControlState, temp: int16, setpoint: int16, ts: uint8,
                      s: Store, pidOut: int16, kiRounded: int32, kdRounded: int32): (r: PidControlResult)
    requires ValidStore(s)
    // the parameter copies follow the store
    ensures r.ctl.kc == ReadParam(s, Hc) && r.ctl.ti == ReadParam(s, Ti) && r.ctl.td == ReadParam(s, Td)
    ensures r.ctl.hpLim == ToUint16(ReadParam(s, HPL)) && r.ctl.hpTot == ToUint16(ReadParam(s, HPt))
    // a changed power parameter recomputes the limit, otherwise it is kept
    ensures c.hpLim != ToUint16(ReadParam(s, HPL)) || c.hpTot != ToUint16(ReadParam(s, HPt)) ==>
              r.ctl.pidLim == PidLimit(r.ctl.hpLim, r.ctl.hpTot)
    ensures c.hpLim == ToUint16(ReadParam(s, HPL)) && c.hpTot == ToUint16(ReadParam(s, HPt)) ==>
              r.ctl.pidLim == c.pidLim
    // the controller runs exactly when the sample timer fires
    ensures Tick(r.ctl.timer, r.ran) == Divide(c.timer, ts)
    ensures !r.ran ==> r.pidOut == pidOut
    ensures r.ran && r.ctl.pidLim >= 0 ==> 0 <= r.pidOut <= r.ctl.pidLim
    ensures r.ran ==> r.ctl.pid.yk1 == temp
    // a run is one controller step from the (possibly restarted) controller,
    // towards the setpoint and within the current limit
    ensures r.ran ==>
              var step := PidCtrl(ReadParam(s, Hc),
                                  CurrentPid(c, ReadParam(s, Hc), ReadParam(s, Ti), ReadParam(s, Td), ts, temp, kiRounded, kdRounded),
                                  pidOut, temp, setpoint, r.ctl.pidLim);
              r.pidOut == step.uk && r.ctl.pid == step.state
    ensures !r.ran ==>
              r.ctl.pid == CurrentPid(c, ReadParam(s, Hc), ReadParam(s, Ti), ReadParam(s, Td), ts, temp, kiRounded, kdRounded)
    // changed gains restart the controller from the current temperature
    ensures (c.kc != ReadParam(s, Hc) || c.ti != ReadParam(s, Ti) || c.td != ReadParam(s, Td)) ==>
              r.ctl.pid.yk2 == temp
  {
    var kc := ReadParam(s, Hc);
    var ti := ReadParam(s, Ti);
    var td := ReadParam(s, Td);
    var pid := CurrentPid(c, kc, ti, td, ts, temp, kiRounded, kdRounded);
    var hpl := ToUint16(ReadParam(s, HPL));
    var hpt := ToUint16(ReadParam(s, HPt));
    var lim := if c.hpLim != hpl || c.hpTot != hpt then PidLimit(hpl, hpt) else c.pidLim;
    var tick := Divide(c.timer, ts);
    if tick.fire then
      var step := PidCtrl(kc, pid, pidOut, temp, setpoint, lim);
      PidControlResult(PidControlState(kc, ti, td, step.state, hpl, hpt, lim, tick.count), step.uk, true)
    else
      PidControlResult(PidControlState(kc, ti, td, pid, hpl, hpt, lim, tick.count), pidOut, false)
  }

  /** Without overflow, a run of the wrapper moves the output by the exact
      type-C increment of the controller it runs with, then limits it. */
  lemma PidControlFollowsTypeC(c: PidControlState, temp: int16, setpoint: int16, ts: uint8,
                               s: Store, pidOut: int16, kiRounded: int32, kdRounded: int32)
    requires ValidStore(s)
    requires NoOverflow(ReadParam(s, Hc),
                        CurrentPid(c, ReadParam(s, Hc), ReadParam(s, Ti), ReadParam(s, Td), ts, temp, kiRounded, kdRounded),
                        pidOut, temp, setpoint)
    ensures var st := CurrentPid(c, ReadParam(s, Hc), ReadParam(s, Ti), ReadParam(s, Td), ts, temp, kiRounded, kdRounded);
            var r := PidControl(c, temp, setpoint, ts, s, pidOut, kiRounded, kdRounded);
            r.ran ==> r.pidOut == Clamp(pidOut + Increment(ReadParam(s, Hc), st.ki, st.kd, temp, st.yk1, st.yk2, setpoint), r.ctl.pidLim)
  {
    var st := CurrentPid(c, ReadParam(s, Hc), ReadParam(s, Ti), ReadParam(s, Td), ts, temp, kiRounded, kdRounded);
    var r := PidControl(c, temp, setpoint, ts, s, pidOut, kiRounded, kdRounded);
    PidCtrlIsTypeC(ReadParam(s, Hc), st, pidOut, temp, setpoint, r.ctl.pidLim);
  }
}
