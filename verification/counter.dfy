/** The `uint8_t` call counters the firmware uses to run something every
    n-th call: the hourly profile update and the PID sample timer. */
module Counter {
  import opened Ints
  import opened Arith

  /** A `uint8_t` call counter that fires once it reaches `period` and then
      restarts from 0. */
  datatype Tick = Tick(count: uint8, fire: bool)

  /** The counter fires at or past its period, so lowering the period below
      a running count fires on the next call; from 255 the increment wraps
      to 0, which fires only for a period of 0 or less. */
  function Divide(count: uint8, period: int): (t: Tick)
    ensures t.fire ==> t.count == 0
    ensures count < 255 && count + 1 < period ==> t == Tick(count + 1, false)
    ensures count < 255 && count + 1 >= period ==> t == Tick(0, true)
    ensures count == 255 ==> t == Tick(0, period <= 0)
  {
    var c := ToUint8(count + 1);
    if c >= period then Tick(0, true) else Tick(c, false)
  }

  /** Number of times the counter fires in `n` calls. */
  function FireCount(count: uint8, period: int, n: nat): nat
    decreases n
  {
    if n == 0 then 0
    else
      var t := Divide(count, period);
      (if t.fire then 1 else 0) + FireCount(t.count, period, n - 1)
  }

  /** Started below its period, the counter fires exactly once every
      `period` calls. */
  lemma {:induction false} DivideFiresEveryPeriod(count: uint8, period: int, n: nat)
    requires 1 <= period <= 255 && count < period
    ensures FireCount(count, period, n) == (count + n) / period
    decreases n
  {
    if n > 0 {
      var t := Divide(count, period);
      DivideFiresEveryPeriod(t.count, period, n - 1);
      if t.fire {
        assert count + n == period + (n - 1);
        DivMinusDivisor(count + n, period);
      }
    }
  }
}
