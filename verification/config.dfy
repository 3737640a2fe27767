/** The persistent configuration store and its wrap-around range check. */
module Config {
  import opened Ints
  import opened Layout

  // Temperature limits, in tenths of a degree.
  const TempMaxF: int := 2500
  const TempMinF: int := -400
  const TempCorrMaxF: int := 100
  const TempCorrMinF: int := -100
  const TempHyst1MaxF: int := 100
  const TempHyst2MaxF: int := 500
  const SpAlarmMinF: int := -800
  const SpAlarmMaxF: int := 800

  const TempMaxC: int := 1400
  const TempMinC: int := -400
  const TempCorrMaxC: int := 50
  const TempCorrMinC: int := -50
  const TempHyst1MaxC: int := 50
  const TempHyst2MaxC: int := 250
  const SpAlarmMinC: int := -400
  const SpAlarmMaxC: int := 400

  /** Every caller names a store word with a `uint8_t` address, so the store
      is modelled as the 256 words such an address can reach; the
      configuration occupies words 0..137. */
  const StoreWords: nat := 256

  type Store = seq<int16>

  predicate ValidStore(s: Store)
  {
    |s| == StoreWords
  }

  function Read(s: Store, a: uint8): int16
    requires ValidStore(s)
  {
    s[a]
  }

  /** A write changes exactly the addressed word. */
  function Write(s: Store, a: uint8, v: int16): (s': Store)
    requires ValidStore(s)
    ensures ValidStore(s')
    ensures Read(s', a) == v
    ensures forall b: uint8 :: b != a ==> Read(s', b) == Read(s, b)
  {
    s[a := v]
  }

  /** Store address of a named parameter. */
  function Addr(p: Param): (a: uint8)
    ensures a == MenuItemAddr(p)
  {
    MenuBase + Ordinal(p)
  }

  function ReadParam(s: Store, p: Param): int16
    requires ValidStore(s)
  {
    Read(s, Addr(p))
  }

  const PowerOn: uint8 := PowerOnAddr

  /** Roll-over check: a value above the maximum becomes the minimum, one
      below the minimum becomes the maximum, anything in between is kept. */
  function Range(x: int, lo: int, hi: int): (r: int)
    ensures lo <= hi ==> lo <= r <= hi
    ensures lo <= x <= hi ==> r == x
    ensures x > hi ==> r == lo
    ensures x < lo <= hi ==> r == hi
  {
    if x > hi then lo
    else if x < lo then hi
    else x
  }

  /** Roll-over is idempotent, and stepping one past either end lands on the
      other end. */
  lemma RangeRollsOver(x: int, lo: int, hi: int)
    requires lo <= hi
    ensures Range(Range(x, lo, hi), lo, hi) == Range(x, lo, hi)
    ensures Range(hi + 1, lo, hi) == lo
    ensures Range(lo - 1, lo, hi) == hi
  {
  }

  datatype Bounds = Bounds(lo: int, hi: int)

  /** Bounds of a parameter kind in the chosen unit system. */
  function KindBounds(k: ItemKind, fahrenheit: bool): (b: Bounds)
    ensures b.lo <= b.hi
  {
    match k
    case Temperature => if fahrenheit then Bounds(TempMinF, TempMaxF) else Bounds(TempMinC, TempMaxC)
    case TempDiff => if fahrenheit then Bounds(TempCorrMinF, TempCorrMaxF) else Bounds(TempCorrMinC, TempCorrMaxC)
    case Parameter => Bounds(0, 9999)
    case Boolean => Bounds(0, 1)
    case Hyst1 => Bounds(0, if fahrenheit then TempHyst1MaxF else TempHyst1MaxC)
    case Hyst2 => Bounds(0, if fahrenheit then TempHyst2MaxF else TempHyst2MaxC)
    case SpAlarm => if fahrenheit then Bounds(SpAlarmMinF, SpAlarmMaxF) else Bounds(SpAlarmMinC, SpAlarmMaxC)
    case Step => Bounds(0, NoOfTtPairs)
    case Delay => Bounds(0, 60)
    case RunMode => Bounds(0, NoOfProfiles)
    // no case of its own in the firmware: the initial bounds 0..999 apply
    case Duration => Bounds(0, 999)
  }

  /** Slot of a profile word within its profile, found by repeatedly
      subtracting the profile size. */
  function ProfileSlot(a: nat): (slot: nat)
    ensures slot == a % ProfileSize
  {
    if a >= ProfileSize then ProfileSlot(a - ProfileSize) else a
  }

  /** Bounds that apply to a configuration address: even profile slots hold
      temperatures, odd ones durations; a parameter uses its kind's bounds. */
  function AddrBounds(a: nat, fahrenheit: bool): (b: Bounds)
    requires a < PowerOnAddr
    ensures b.lo <= b.hi
  {
    if a < MenuBase then
      if ProfileSlot(a) % 2 == 0 then KindBounds(Temperature, fahrenheit)
      else Bounds(0, 999)
    else
      KindBounds(KindOf(ParamAt(a - MenuBase)), fahrenheit)
  }

  /** The value the menu may show or store at address `a`. */
  function CheckConfigValue(v: int16, a: uint8, fahrenheit: bool): (r: int16)
    requires a < PowerOnAddr
    ensures AddrBounds(a, fahrenheit).lo <= r <= AddrBounds(a, fahrenheit).hi
    ensures AddrBounds(a, fahrenheit).lo <= v <= AddrBounds(a, fahrenheit).hi ==> r == v
  {
    var b := AddrBounds(a, fahrenheit);
    Range(v, b.lo, b.hi)
  }

  predicate InBounds(v: int, a: nat, fahrenheit: bool)
    requires a < PowerOnAddr
  {
    AddrBounds(a, fahrenheit).lo <= v <= AddrBounds(a, fahrenheit).hi
  }

  /** Within the bounds of either unit system (the Fahrenheit bounds contain
      the Celsius ones, so this is the Fahrenheit check). */
  predicate InSomeBounds(v: int, a: nat)
    requires a < PowerOnAddr
  {
    InBounds(v, a, false) || InBounds(v, a, true)
  }

  lemma CelsiusWithinFahrenheit(v: int, a: nat)
    requires a < PowerOnAddr
    ensures InBounds(v, a, false) ==> InBounds(v, a, true)
  {
  }

  /** The concrete bounds check_config_value enforces for each class of
      address: profile setpoints, profile durations and each parameter kind. */
  lemma CheckConfigBoundsTable(v: int16, a: uint8, f: bool)
    requires a < PowerOnAddr
    ensures var r := CheckConfigValue(v, a, f);
      && (a < MenuBase && (a % ProfileSize) % 2 == 0 ==>
            (if f then -400 <= r <= 2500 else -400 <= r <= 1400))
      && (a < MenuBase && (a % ProfileSize) % 2 == 1 ==> 0 <= r <= 999)
      && (a >= MenuBase ==>
            var k := KindOf(ParamAt(a - MenuBase));
            && (k == Temperature ==> (if f then -400 <= r <= 2500 else -400 <= r <= 1400))
            && (k == TempDiff ==> (if f then -100 <= r <= 100 else -50 <= r <= 50))
            && (k == Hyst1 ==> (if f then 0 <= r <= 100 else 0 <= r <= 50))
            && (k == Hyst2 ==> (if f then 0 <= r <= 500 else 0 <= r <= 250))
            && (k == SpAlarm ==> (if f then -800 <= r <= 800 else -400 <= r <= 400))
            && (k == Duration ==> 0 <= r <= 999)
            && (k == Boolean ==> 0 <= r <= 1)
            && (k == Delay ==> 0 <= r <= 60)
            && (k == RunMode ==> 0 <= r <= 6)
            && (k == Step ==> 0 <= r <= 9)
            && (k == Parameter ==> 0 <= r <= 9999))
  {
  }

  // ---- built-in defaults --------------------------------------------------

  /** Default contents of every profile: 16.0, 17.0, 18.0 and 19.0 degrees
      for 24 hours each, 20.0 for 144 hours, 25.0 for 48 hours, then 4.0
      with a zero duration, which ends the profile. */
  const ProfileDefaults: seq<int16> :=
    [160, 24, 170, 24, 180, 24, 190, 24, 200, 144, 250, 48, 40, 0, 0, 0, 0, 0, 0]

  /** The first-boot image of words 0..137: six default profiles, the
      parameter defaults, and power on. */
  function DefaultImage(): (img: seq<int16>)
    ensures |img| == PowerOnAddr + 1
    ensures forall a :: 0 <= a < |img| ==> img[a] == DefaultWord(a)
  {
    seq(PowerOnAddr + 1, a requires 0 <= a <= PowerOnAddr => DefaultWord(a))
  }

  function DefaultWord(a: nat): int16
    requires a <= PowerOnAddr
  {
    if a < MenuBase then ProfileDefaults[a % ProfileSize]
    else if a < PowerOnAddr then DefaultOf(ParamAt(a - MenuBase))
    else 1
  }

  /** Every parameter default lies inside its Celsius bounds. */
  lemma ParamDefaultsInBounds(p: Param)
    ensures KindBounds(KindOf(p), false).lo <= DefaultOf(p) <= KindBounds(KindOf(p), false).hi
  {
  }

  /** Every word of the default profile lies in 0..250, inside both the
      setpoint and the duration bounds. */
  lemma ProfileDefaultsSmall()
    ensures forall i :: 0 <= i < |ProfileDefaults| ==> 0 <= ProfileDefaults[i] <= 250
  {
  }

  /** Each default word below the power-on word passes its range check. */
  lemma DefaultWordInBounds(a: uint8)
    requires a < PowerOnAddr
    ensures CheckConfigValue(DefaultWord(a), a, false) == DefaultWord(a)
  {
    if a < MenuBase {
      ProfileDefaultsSmall();
    } else {
      ParamDefaultsInBounds(ParamAt(a - MenuBase));
    }
  }

  /** The defaults start with no profile running (step 0, duration 0, run
      mode thermostat) and power on, and every default word already passes
      the range check unchanged. */
  lemma DefaultImageFacts()
    ensures DefaultImage()[MenuItemAddr(St)] == 0
    ensures DefaultImage()[MenuItemAddr(Dh)] == 0
    ensures DefaultImage()[MenuItemAddr(Rn)] == ThermostatMode
    ensures DefaultImage()[PowerOnAddr] == 1
    ensures forall a: uint8 :: a < PowerOnAddr ==> CheckConfigValue(DefaultImage()[a], a, false) == DefaultImage()[a]
  {
    var img := DefaultImage();
    assert img[MenuItemAddr(St)] == DefaultWord(MenuItemAddr(St));
    assert img[MenuItemAddr(Dh)] == DefaultWord(MenuItemAddr(Dh));
    assert img[MenuItemAddr(Rn)] == DefaultWord(MenuItemAddr(Rn));
    assert img[PowerOnAddr] == DefaultWord(PowerOnAddr);
    forall a: uint8 | a < PowerOnAddr
      ensures CheckConfigValue(img[a], a, false) == img[a]
    {
      DefaultWordInBounds(a);
    }
  }
}
