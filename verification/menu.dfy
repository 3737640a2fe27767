/** The 100 ms menu state machine behind the four front-panel keys: showing
    status, toggling power with a long press, browsing the six profiles and
    the parameter menu, and editing and committing configuration words.
    What the display shows is recorded as an abstract `Screen` value. */
module Menu {
  import opened Ints
  import opened Layout
  import opened Config
  import opened Buttons
  import Thermostat

  const PowerDownTicks: uint8 := 30
  const ShowProfileTicks: uint8 := 15
  const NoKeyTimeout: uint8 := 150
  const KeyAcceleration: int8 := 20

  datatype MenuState =
    | Idle | ShowVersion | ShowStateUp | ShowStateDown | ShowStateDown2 | ShowStateDown3
    | PowerDownWait | ShowMenuItem | SetMenuItem | ShowConfigItem | SetConfigItem
    | ShowConfigValue | SetConfigValue

  /** What one step leaves on the display. */
  datatype Screen =
    | Unchanged
    | Version
    | RunModeShown(runMode: uint8)
    | StepShown(step: int16)
    | DurationShown(hours: int16)
    | MenuItemName(menuItem: uint8)
    | ConfigItemName(menuItem: uint8, configItem: uint8)
    | ConfigValueShown(value: int16)

  /** The menu's own variables. */
  datatype Panel = Panel(state: MenuState, ret: MenuState, countdown: uint8,
                         menuItem: uint8, configItem: uint8, configValue: int16,
                         keyHeldTimer: int8, sensor2: uint8, isIdle: bool)

  /** Variables the menu shares with the control tasks: the configuration
      store, the power flag and the relay delays. */
  datatype Shared = Shared(store: Store, pwrOn: bool, delays: Thermostat.Delays)

  datatype MenuStep = MenuStep(panel: Panel, shared: Shared, screen: Screen)

  predicate InConfig(q: MenuState)
  {
    q == ShowConfigItem || q == SetConfigItem || q == ShowConfigValue || q == SetConfigValue
  }

  predicate HoldsValue(q: MenuState)
  {
    q == SetConfigItem || q == ShowConfigValue || q == SetConfigValue
  }

  /** The store address of the selected configuration item, as the byte the
      firmware computes. */
  function ItemAddr(p: Panel): uint8
  {
    ToUint8(MiCiToAddr(p.menuItem, p.configItem))
  }

  /** The state every reachable panel satisfies: a menu item 0..6, a
      configuration item inside its menu, a return state that is one of the
      three the machine stores, and a value held for editing that passes the
      range check of its address (in one of the two unit systems). */
  predicate PanelInv(p: Panel)
  {
    && p.menuItem <= MenuItemNo
    && (InConfig(p.state) ==> p.configItem < ItemCount(p.menuItem))
    && (p.state == ShowConfigValue ==> p.ret in {SetConfigItem, ShowConfigItem, SetConfigValue})
    && (HoldsValue(p.state) ==>
          && MiCiToAddr(p.menuItem, p.configItem) < PowerOnAddr
          && InSomeBounds(p.configValue, MiCiToAddr(p.menuItem, p.configItem)))
  }

  const PanelStart := Panel(Idle, Idle, 0, 0, 0, 0, 0, 0, true)

  lemma StartInv()
    ensures PanelInv(PanelStart)
  {
  }

  lemma ItemAddrInRange(p: Panel)
    requires p.menuItem <= MenuItemNo && p.configItem < ItemCount(p.menuItem)
    ensures ItemAddr(p) == MiCiToAddr(p.menuItem, p.configItem) < PowerOnAddr
  {
    MenuAddresses(SP, p.menuItem, p.configItem);
  }

  /** The value shown for the selected item: its stored word, range-checked. */
  function CheckedItem(p: Panel, s: Store, f: bool): (v: int16)
    requires ValidStore(s) && p.menuItem <= MenuItemNo && p.configItem < ItemCount(p.menuItem)
    ensures InBounds(v, MiCiToAddr(p.menuItem, p.configItem), f)
    ensures InSomeBounds(v, MiCiToAddr(p.menuItem, p.configItem))
  {
    ItemAddrInRange(p);
    CelsiusWithinFahrenheit(CheckConfigValue(Read(s, ItemAddr(p)), ItemAddr(p), f), ItemAddr(p));
    CheckConfigValue(Read(s, ItemAddr(p)), ItemAddr(p), f)
  }

  // ---- the states ------------------------------------------------------------

  /** Idle: a press of PWR starts the power-down wait; with power on, UP shows
      the version, DOWN the run state and a released SET opens the menu. */
  function IdleStep(p: Panel, e: Shared, b: bv8): (r: MenuStep)
    requires ValidStore(e.store) && p.state == Idle
    ensures r.shared.pwrOn == (Read(e.store, PowerOn) != 0)
    ensures r.shared.store == e.store && r.shared.delays == e.delays
    ensures Pressed(b, Pwr) ==> r.panel.state == PowerDownWait && r.panel.countdown == PowerDownTicks
    ensures !Pressed(b, Pwr) && !r.shared.pwrOn ==> r.panel == p
    ensures !Pressed(b, Pwr) && r.shared.pwrOn && b != 0 && Pressed(b, Up) ==> r.panel.state == ShowVersion
    ensures !Pressed(b, Pwr) && r.shared.pwrOn && b != 0 && !Pressed(b, Up) && Pressed(b, Down) ==>
              r.panel.state == ShowStateDown && r.panel.countdown == ShowProfileTicks
    ensures !Pressed(b, Pwr) && r.shared.pwrOn && b != 0 && !Pressed(b, Up) && !Pressed(b, Down) && Released(b, Set) ==>
              r.panel.state == ShowMenuItem
    ensures b == 0 ==> r.panel == p
    ensures !Pressed(b, Pwr) && !Pressed(b, Up) && !Pressed(b, Down) && !Released(b, Set) ==> r.panel == p
    ensures r.panel.state != Idle ==> r.panel.menuItem == p.menuItem
    ensures r.panel.state == ShowMenuItem ==> Released(b, Set)
    ensures PanelInv(p) ==> PanelInv(r.panel)
  {
    var pwrOn := Read(e.store, PowerOn) != 0;
    var e' := e.(pwrOn := pwrOn);
    if Pressed(b, Pwr) then
      MenuStep(p.(countdown := PowerDownTicks, state := PowerDownWait), e', Unchanged)
    else if pwrOn && b != 0 then
      if Pressed(b, Up) then MenuStep(p.(state := ShowVersion), e', Unchanged)
      else if Pressed(b, Down) then
        MenuStep(p.(countdown := ShowProfileTicks, state := ShowStateDown), e', Unchanged)
      else if Released(b, Set) then MenuStep(p.(state := ShowMenuItem), e', Unchanged)
      else MenuStep(p, e', Unchanged)
    else MenuStep(p, e', Unchanged)
  }

  /** The next of the four second-display sources (probe 1, probe 2, one-wire
      sensor, PID output). */
  function NextSensor(s: uint8): (s': uint8)
    ensures s < 3 ==> s' == s + 1
    ensures s >= 3 ==> s' == 0
  {
    var n := ToUint8(s + 1);
    if n > 3 then 0 else n
  }

  /** Power-down wait: when the countdown runs out with PWR still down, the
      stored power flag is toggled (power on restarts both relay delays at 60
      seconds); a PWR let go earlier selects the next second-display source. */
  function PowerDownStep(p: Panel, e: Shared, b: bv8): (r: MenuStep)
    requires ValidStore(e.store) && p.state == PowerDownWait
    ensures r.panel.state == Idle || r.panel == p
    ensures p.countdown == 0 ==>
              && r.shared.pwrOn == (Read(e.store, PowerOn) == 0)
              && r.shared.store == Write(e.store, PowerOn, if r.shared.pwrOn then 1 else 0)
              && r.shared.delays == (if r.shared.pwrOn then Thermostat.Delays(60, 60) else e.delays)
              && r.panel == p.(state := Idle)
    ensures p.countdown != 0 ==> r.shared == e
    ensures p.countdown != 0 && !Held(b, Pwr) ==> r.panel == p.(state := Idle, sensor2 := NextSensor(p.sensor2))
    ensures p.countdown != 0 && Held(b, Pwr) ==> r.panel == p
    ensures PanelInv(p) ==> PanelInv(r.panel)
  {
    if p.countdown == 0 then
      var on := !(Read(e.store, PowerOn) != 0);
      var s' := Write(e.store, PowerOn, if on then 1 else 0);
      var d := if on then Thermostat.Delays(60, 60) else e.delays;
      MenuStep(p.(state := Idle), Shared(s', on, d), Unchanged)
    else if !Held(b, Pwr) then
      MenuStep(p.(state := Idle, sensor2 := NextSensor(p.sensor2)), e, Unchanged)
    else MenuStep(p, e, Unchanged)
  }

  /** The three status screens cycled while DOWN stays held: run mode, then
      (in profile mode) current step and hours in the step, each for 1.5 s. */
  function ShowStateStep(p: Panel, e: Shared, b: bv8): (r: MenuStep)
    requires ValidStore(e.store)
    requires p.state in {ShowStateDown, ShowStateDown2, ShowStateDown3}
    ensures r.shared == e
    ensures !Held(b, Down) ==> r.panel.state == Idle
    ensures Held(b, Down) && p.countdown != 0 ==> r.panel == p
    ensures Held(b, Down) && p.countdown == 0 && p.state == ShowStateDown && ToUint8(ReadParam(e.store, Rn)) < ThermostatMode ==>
              r.panel == p.(state := ShowStateDown2, countdown := ShowProfileTicks)
    ensures p.state == ShowStateDown && ToUint8(ReadParam(e.store, Rn)) >= ThermostatMode ==> r.panel.state != ShowStateDown2
    ensures PanelInv(p) ==> PanelInv(r.panel)
  {
    match p.state
    case ShowStateDown =>
      var runMode := ToUint8(ReadParam(e.store, Rn));
      var p1 := if runMode < ThermostatMode && p.countdown == 0
                then p.(countdown := ShowProfileTicks, state := ShowStateDown2) else p;
      MenuStep(if !Held(b, Down) then p1.(state := Idle) else p1, e, RunModeShown(runMode))
    case ShowStateDown2 =>
      var p1 := if p.countdown == 0 then p.(countdown := ShowProfileTicks, state := ShowStateDown3) else p;
      MenuStep(if !Held(b, Down) then p1.(state := Idle) else p1, e, StepShown(ReadParam(e.store, St)))
    case ShowStateDown3 =>
      var p1 := if p.countdown == 0 then p.(countdown := ShowProfileTicks, state := ShowStateDown) else p;
      MenuStep(if !Held(b, Down) then p1.(state := Idle) else p1, e, DurationShown(ReadParam(e.store, Dh)))
  }

  /** Browsing the menu items Pr0..Pr5 and Par: UP and DOWN wrap around the
      seven items, SET enters the selected one at its first item, PWR or the
      15 s timeout leaves. */
  function SetMenuItemStep(p: Panel, b: bv8): (p': Panel)
    requires p.state == SetMenuItem && p.menuItem <= MenuItemNo
    ensures p'.menuItem <= MenuItemNo
    ensures p.countdown == 0 || Released(b, Pwr) ==> p' == p.(state := Idle)
    ensures p.countdown != 0 && !Released(b, Pwr) && Released(b, Up) ==>
              p' == p.(menuItem := (p.menuItem + 1) % 7, state := ShowMenuItem)
    ensures p.countdown != 0 && !Released(b, Pwr) && !Released(b, Up) && Released(b, Down) ==>
              p' == p.(menuItem := (p.menuItem + 6) % 7, state := ShowMenuItem)
    ensures p'.state == ShowConfigItem <==>
              p.countdown != 0 && !Released(b, Pwr) && !Released(b, Up) && !Released(b, Down) && Released(b, Set)
    ensures p'.state == ShowConfigItem ==> p' == p.(configItem := 0, state := ShowConfigItem)
    ensures PanelInv(p')
  {
    if p.countdown == 0 || Released(b, Pwr) then p.(state := Idle)
    else if Released(b, Up) then
      var m := ToUint8(p.menuItem + 1);
      p.(menuItem := if m > MenuItemNo then 0 else m, state := ShowMenuItem)
    else if Released(b, Down) then
      var m := ToUint8(p.menuItem - 1);
      p.(menuItem := if m > MenuItemNo then MenuItemNo else m, state := ShowMenuItem)
    else if Released(b, Set) then p.(configItem := 0, state := ShowConfigItem)
    else p
  }

  /** In thermostat mode the parameter menu hops over St and dh: landing on
      St moves on to the item after dh, landing on dh moves back to the item
      before St. */
  function SkipStepItems(ci: uint8, s: Store): (ci': uint8)
    requires ValidStore(s) && ci < MenuSize as int
    ensures ci' < MenuSize as int
    ensures ToUint8(ReadParam(s, Rn)) >= ThermostatMode ==> ci' != Ordinal(St) && ci' != Ordinal(Dh)
    ensures ToUint8(ReadParam(s, Rn)) < ThermostatMode ==> ci' == ci
    ensures ci != Ordinal(St) && ci != Ordinal(Dh) ==> ci' == ci
  {
    if ToUint8(ReadParam(s, Rn)) >= ThermostatMode then
      if ci == Ordinal(St) then ci + 2
      else if ci == Ordinal(Dh) then ci - 2
      else ci
    else ci
  }

  /** The next configuration item for UP: wraps within the profile's 19
      slots, or within the 23 parameters with the thermostat-mode hop. */
  function ItemUp(mi: uint8, ci: uint8, s: Store): (ci': uint8)
    requires ValidStore(s) && mi <= MenuItemNo && ci < ItemCount(mi)
    ensures ci' < ItemCount(mi)
    ensures mi < MenuItemNo ==> ci' == (if ci == ProfileSize - 1 then 0 else ci + 1)
    ensures mi == MenuItemNo ==> ci' == SkipStepItems(if ci == MenuSize - 1 then 0 else ci + 1, s)
  {
    var c := ToUint8(ci + 1);
    if mi < MenuItemNo then (if c >= ProfileSize then 0 else c)
    else SkipStepItems(if c >= MenuSize then 0 else c, s)
  }

  /** The next configuration item for DOWN, wrapping the other way. */
  function ItemDown(mi: uint8, ci: uint8, s: Store): (ci': uint8)
    requires ValidStore(s) && mi <= MenuItemNo && ci < ItemCount(mi)
    ensures ci' < ItemCount(mi)
    ensures mi < MenuItemNo ==> ci' == (if ci == 0 then ProfileSize - 1 else ci - 1)
    ensures mi == MenuItemNo ==> ci' == SkipStepItems(if ci == 0 then (MenuSize - 1) as uint8 else ci - 1, s)
  {
    var c := ToUint8(ci - 1);
    if mi < MenuItemNo then (if c >= ProfileSize then (ProfileSize - 1) as uint8 else c)
    else SkipStepItems(if c > MenuSize - 1 then (MenuSize - 1) as uint8 else c, s)
  }

  /** The key handling of the item browser: the timeout and PWR leave, UP
      and DOWN select the next or previous item and show its value, SET
      starts editing it. */
  function ConfigItemKeys(p: Panel, s: Store, b: bv8): (p': Panel)
    requires ValidStore(s) && p.state == SetConfigItem
    requires p.menuItem <= MenuItemNo && p.configItem < ItemCount(p.menuItem)
    ensures p'.menuItem == p.menuItem && p'.configItem < ItemCount(p'.menuItem)
    ensures p'.state in {Idle, ShowMenuItem, ShowConfigValue, SetConfigValue, SetConfigItem}
    ensures p'.state == ShowConfigValue ==> p'.ret == ShowConfigItem
    ensures p.countdown == 0 ==> p'.state == Idle
    ensures p.countdown != 0 && Released(b, Pwr) ==> p'.state == ShowMenuItem
    ensures p.countdown != 0 && !Released(b, Pwr) && Released(b, Up) ==>
              p'.configItem == ItemUp(p.menuItem, p.configItem, s) && p'.state == ShowConfigValue
    ensures p.countdown != 0 && !Released(b, Pwr) && !Released(b, Up) && Released(b, Down) ==>
              p'.configItem == ItemDown(p.menuItem, p.configItem, s) && p'.state == ShowConfigValue
    ensures p.countdown != 0 && !Released(b, Pwr) && !Released(b, Up) && !Released(b, Down) ==>
              p'.configItem == p.configItem
    ensures p'.state == SetConfigValue <==>
              p.countdown != 0 && !Released(b, Pwr) && !Released(b, Up) && !Released(b, Down) && Released(b, Set)
    ensures p'.state == SetConfigValue ==> p'.countdown == NoKeyTimeout
  {
    if p.countdown == 0 then p.(state := Idle)
    else if Released(b, Pwr) then p.(state := ShowMenuItem)
    else if Released(b, Up) then
      p.(configItem := ItemUp(p.menuItem, p.configItem, s), ret := ShowConfigItem, state := ShowConfigValue)
    else if Released(b, Down) then
      p.(configItem := ItemDown(p.menuItem, p.configItem, s), ret := ShowConfigItem, state := ShowConfigValue)
    else if Released(b, Set) then p.(countdown := NoKeyTimeout, state := SetConfigValue)
    else p
  }

  /** Browsing the items of a profile or of the parameter menu. After the
      key handling the selected item's stored value is read and
      range-checked. */
  function SetConfigItemStep(p: Panel, s: Store, b: bv8, f: bool): (p': Panel)
    requires ValidStore(s) && p.state == SetConfigItem
    requires p.menuItem <= MenuItemNo && p.configItem < ItemCount(p.menuItem)
    ensures p'.menuItem == p.menuItem && p'.configItem < ItemCount(p'.menuItem)
    ensures p'.configValue == CheckedItem(p', s, f)
    ensures p.countdown == 0 ==> p'.state == Idle
    ensures p.countdown != 0 && Released(b, Pwr) ==> p'.state == ShowMenuItem
    ensures p.countdown != 0 && !Released(b, Pwr) && Released(b, Up) ==>
              p'.configItem == ItemUp(p.menuItem, p.configItem, s)
              && p'.state == ShowConfigValue && p'.ret == ShowConfigItem
    ensures p.countdown != 0 && !Released(b, Pwr) && !Released(b, Up) && Released(b, Down) ==>
              p'.configItem == ItemDown(p.menuItem, p.configItem, s)
              && p'.state == ShowConfigValue && p'.ret == ShowConfigItem
    ensures p.countdown != 0 && !Released(b, Pwr) && !Released(b, Up) && !Released(b, Down) ==>
              p'.configItem == p.configItem
    ensures p'.state == SetConfigValue <==>
              p.countdown != 0 && !Released(b, Pwr) && !Released(b, Up) && !Released(b, Down) && Released(b, Set)
    ensures p'.state == SetConfigValue ==> p'.countdown == NoKeyTimeout
    ensures PanelInv(p')
  {
    var p1 := ConfigItemKeys(p, s, b);
    ItemAddrInRange(p1);
    p1.(configValue := CheckedItem(p1, s, f))
  }

  /** One UP or DOWN step of the edited value: by one, or by ten once the
      key has been held for 2 s or the value is above 1000 (the
      acceleration timer only runs while the value is at most 1000), then
      range-checked. */
  function AdjustValue(cv: int16, kht: int8, up: bool, a: uint8, f: bool): (r: (int16, int8))
    requires a < PowerOnAddr
    ensures InBounds(r.0, a, f)
    // by one while the timer has not run out and the value stays at most 1000
    ensures (if up then cv + 1 else cv - 1) <= 1000 && kht > 0 && InBounds(if up then cv + 1 else cv - 1, a, f) ==>
              r.0 == (if up then cv + 1 else cv - 1)
    // by ten once the timer has run out
    ensures (if up then cv + 1 else cv - 1) <= 1000 && -0x80 < kht <= 0 && InBounds(if up then cv + 10 else cv - 10, a, f) ==>
              r.0 == (if up then cv + 10 else cv - 10)
    // by ten above 1000, whatever the timer
    ensures (if up then cv + 1 else cv - 1) > 1000 && InBounds(if up then cv + 10 else cv - 10, a, f) ==>
              r.0 == (if up then cv + 10 else cv - 10)
    // stepping past either end rolls over to the other
    ensures up && cv == AddrBounds(a, f).hi ==> r.0 == AddrBounds(a, f).lo
    ensures !up && cv == AddrBounds(a, f).lo ==> r.0 == AddrBounds(a, f).hi
    // the timer counts only while the stepped value is at most 1000; from
    // -128 it wraps to 127, so acceleration pauses until it is negative again
    ensures (if up then cv + 1 else cv - 1) > 1000 && cv < 0x7FFF ==> r.1 == kht
    ensures (if up then cv + 1 else cv - 1) <= 1000 && -0x8000 < cv && kht > -0x80 ==> r.1 == kht - 1
    ensures (if up then cv + 1 else cv - 1) <= 1000 && -0x8000 < cv && kht == -0x80 ==> r.1 == 0x7F
  {
    var c1 := ToInt16(if up then cv + 1 else cv - 1);
    var kht' := if c1 > 1000 then kht else ToInt8(kht - 1);
    var c2 := if c1 > 1000 || kht' < 0 then ToInt16(if up then c1 + 9 else c1 - 9) else c1;
    (CheckConfigValue(c2, a, f), kht')
  }

  /** Writing run mode from the parameter menu: step and hours restart at
      zero, and choosing profile r (< 6) copies its first setpoint into SP;
      a profile whose first duration is 0 is stored as thermostat mode. */
  function CommitRunMode(cv: int16, s: Store): (r: (int16, Store))
    requires ValidStore(s)
    ensures ValidStore(r.1)
    ensures ReadParam(r.1, St) == 0 && ReadParam(r.1, Dh) == 0
    ensures cv >= ThermostatMode ==> r.0 == cv && ReadParam(r.1, SP) == ReadParam(s, SP)
    ensures 0 <= cv < ThermostatMode ==>
              && ReadParam(r.1, SP) == Read(s, (cv * ProfileSize) as uint8)
              && r.0 == (if Read(s, (cv * ProfileSize + 1) as uint8) == 0 then ThermostatMode as int16 else cv)
    ensures forall a: uint8 :: a != Addr(St) && a != Addr(Dh) && a != Addr(SP) ==> Read(r.1, a) == Read(s, a)
  {
    var s1 := Write(Write(s, Addr(St), 0), Addr(Dh), 0);
    if cv < ThermostatMode then
      var spAddr := ToUint8(ToUint8(cv) * ProfileSize);
      var s2 := Write(s1, Addr(SP), Read(s1, spAddr));
      (if Read(s2, ToUint8(spAddr + 1)) == 0 then ThermostatMode as int16 else cv, s2)
    else (cv, s1)
  }

  /** Editing a value: UP and DOWN adjust it (held keys repeat), SET stores
      it, PWR drops the edit, and the timeout returns to idle. */
  function SetConfigValueStep(p: Panel, s: Store, b: bv8, f: bool): (r: (Panel, Store))
    requires ValidStore(s) && p.state == SetConfigValue
    requires p.menuItem <= MenuItemNo && p.configItem < ItemCount(p.menuItem)
    requires InSomeBounds(p.configValue, MiCiToAddr(p.menuItem, p.configItem))
    ensures ValidStore(r.1)
    ensures r.0.menuItem == p.menuItem && r.0.configItem == p.configItem
    ensures r.0.state == ShowConfigValue ==> r.0.ret == SetConfigValue
    ensures r.0.state in {Idle, ShowConfigItem, ShowConfigValue, SetConfigValue}
    ensures HoldsValue(r.0.state) ==> InSomeBounds(r.0.configValue, MiCiToAddr(p.menuItem, p.configItem))
    // only a released SET changes the store
    ensures r.1 != s ==>
              p.countdown != 0 && !Released(b, Pwr) && !HeldOrReleased(b, Up) && !HeldOrReleased(b, Down)
              && Released(b, Set)
    ensures p.countdown != 0 && !Released(b, Pwr) && HeldOrReleased(b, Up) ==>
              && r.0.state == ShowConfigValue
              && InBounds(r.0.configValue, ItemAddr(p), f)
              && (r.0.configValue, r.0.keyHeldTimer) == AdjustValue(p.configValue, p.keyHeldTimer, true, ItemAddr(p), f)
    ensures p.countdown != 0 && !Released(b, Pwr) && !HeldOrReleased(b, Up) && HeldOrReleased(b, Down) ==>
              && r.0.state == ShowConfigValue
              && (r.0.configValue, r.0.keyHeldTimer) == AdjustValue(p.configValue, p.keyHeldTimer, false, ItemAddr(p), f)
    // the commit stores the held value, after the run-mode side effects
    ensures p.countdown != 0 && !Released(b, Pwr) && !HeldOrReleased(b, Up) && !HeldOrReleased(b, Down) && Released(b, Set) ==>
              && r.0.state == ShowConfigItem
              && Read(r.1, ItemAddr(p)) == r.0.configValue
              && InSomeBounds(Read(r.1, ItemAddr(p)), ItemAddr(p))
              && (ItemAddr(p) != Addr(Rn) ==> r.1 == Write(s, ItemAddr(p), p.configValue))
              && (ItemAddr(p) == Addr(Rn) ==>
                    var c := CommitRunMode(p.configValue, s); r.1 == Write(c.1, Addr(Rn), c.0))
    ensures PanelInv(r.0)
  {
    ItemAddrInRange(p);
    var a := ItemAddr(p);
    if p.countdown == 0 then (p.(state := Idle), s)
    else if Released(b, Pwr) then (p.(state := ShowConfigItem), s)
    else if HeldOrReleased(b, Up) || HeldOrReleased(b, Down) then
      var v := AdjustValue(p.configValue, p.keyHeldTimer, HeldOrReleased(b, Up), a, f);
      CelsiusWithinFahrenheit(v.0, a);
      (p.(configValue := v.0, keyHeldTimer := v.1, ret := SetConfigValue, state := ShowConfigValue), s)
    else if Released(b, Set) then CommitValue(p, s)
    else (p.(keyHeldTimer := KeyAcceleration), s)
  }

  /** The selected item is the run-mode word exactly when the parameter menu
      is open at Rn: no profile slot reaches address 136. */
  lemma RunModeItem(p: Panel)
    requires p.menuItem <= MenuItemNo && p.configItem < ItemCount(p.menuItem)
    ensures ItemAddr(p) == Addr(Rn) <==> p.menuItem == MenuItemNo && p.configItem == Ordinal(Rn)
  {
    ItemAddrInRange(p);
    MenuAddresses(Rn, p.menuItem, p.configItem);
    if p.menuItem < MenuItemNo {
      assert p.menuItem * ProfileSize <= 5 * ProfileSize;
    }
  }

  /** A released SET stores the held value; setting run mode first restarts
      step and hours and may replace the value by thermostat mode. */
  function CommitValue(p: Panel, s: Store): (r: (Panel, Store))
    requires ValidStore(s)
    requires p.menuItem <= MenuItemNo && p.configItem < ItemCount(p.menuItem)
    requires InSomeBounds(p.configValue, MiCiToAddr(p.menuItem, p.configItem))
    ensures ValidStore(r.1)
    ensures r.0 == p.(configValue := r.0.configValue, state := ShowConfigItem)
    ensures Read(r.1, ItemAddr(p)) == r.0.configValue
    ensures InSomeBounds(r.0.configValue, MiCiToAddr(p.menuItem, p.configItem))
    ensures ItemAddr(p) != Addr(Rn) ==> r.0.configValue == p.configValue && r.1 == Write(s, ItemAddr(p), p.configValue)
    ensures ItemAddr(p) == Addr(Rn) ==>
              var c := CommitRunMode(p.configValue, s); r.0.configValue == c.0 && r.1 == Write(c.1, Addr(Rn), c.0)
  {
    RunModeItem(p);
    var c := if p.menuItem == MenuItemNo as uint8 && p.configItem == Ordinal(Rn) as uint8
             then CommitRunMode(p.configValue, s) else (p.configValue, s);
    assert InSomeBounds(c.0, MiCiToAddr(p.menuItem, p.configItem)) by {
      if c.0 != p.configValue {
        assert MiCiToAddr(p.menuItem, p.configItem) == MenuItemAddr(Rn);
      }
    }
    (p.(configValue := c.0, state := ShowConfigItem), Write(c.1, ItemAddr(p), c.0))
  }

  // ---- the machine -------------------------------------------------------------

  /** The states outside the configuration menu. */
  predicate StatusState(q: MenuState)
  {
    q in {Idle, PowerDownWait, ShowVersion, ShowStateUp, ShowStateDown, ShowStateDown2, ShowStateDown3}
  }

  /** One step in a state outside the configuration menu. */
  function StatusStep(p: Panel, e: Shared, b: bv8): (r: MenuStep)
    requires ValidStore(e.store) && PanelInv(p) && StatusState(p.state)
    ensures ValidStore(r.shared.store) && PanelInv(r.panel)
    ensures r.shared.store != e.store ==> p.state == PowerDownWait
    ensures p.state == ShowStateUp ==> r.panel.state == Idle
    ensures p.state == ShowVersion ==> r.panel.state == (if Held(b, Up) then ShowVersion else Idle)
  {
    match p.state
    case Idle => IdleStep(p, e, b)
    case PowerDownWait => PowerDownStep(p, e, b)
    case ShowVersion => MenuStep(if !Held(b, Up) then p.(state := Idle) else p, e, Version)
    case ShowStateDown => ShowStateStep(p, e, b)
    case ShowStateDown2 => ShowStateStep(p, e, b)
    case ShowStateDown3 => ShowStateStep(p, e, b)
    case ShowStateUp => MenuStep(p.(state := Idle), e, Unchanged)
  }

  /** The browsing states of the configuration menu, which leave the shared
      variables alone. */
  predicate BrowseState(q: MenuState)
  {
    q in {ShowMenuItem, SetMenuItem, ShowConfigItem, ShowConfigValue}
  }

  /** One step while browsing menu items and configuration items. */
  function BrowseStep(p: Panel, e: Shared, b: bv8, f: bool): (r: MenuStep)
    requires ValidStore(e.store) && PanelInv(p) && BrowseState(p.state)
    ensures r.shared == e && PanelInv(r.panel)
  {
    match p.state
    case ShowMenuItem =>
      MenuStep(p.(countdown := NoKeyTimeout, state := SetMenuItem), e, MenuItemName(p.menuItem))
    case SetMenuItem => MenuStep(SetMenuItemStep(p, b), e, Unchanged)
    case ShowConfigItem =>
      var v := CheckedItem(p, e.store, f);
      MenuStep(p.(configValue := v, countdown := NoKeyTimeout, ret := SetConfigItem, state := ShowConfigValue),
               e, ConfigItemName(p.menuItem, p.configItem))
    case ShowConfigValue =>
      MenuStep(p.(countdown := NoKeyTimeout, state := p.ret), e, ConfigValueShown(p.configValue))
  }

  /** One step while choosing an item to edit or editing its value; only the
      edit's commit writes the store. */
  function EditStep(p: Panel, e: Shared, b: bv8, f: bool): (r: MenuStep)
    requires ValidStore(e.store) && PanelInv(p) && p.state in {SetConfigItem, SetConfigValue}
    ensures ValidStore(r.shared.store) && PanelInv(r.panel)
    ensures r.shared == e.(store := r.shared.store)
    ensures r.shared.store != e.store ==> p.state == SetConfigValue
  {
    if p.state == SetConfigItem then MenuStep(SetConfigItemStep(p, e.store, b, f), e, Unchanged)
    else
      var q := SetConfigValueStep(p, e.store, b, f);
      MenuStep(q.0, e.(store := q.1), Unchanged)
  }

  /** One 100 ms step: count the timer down, then act on the current state
      and the button register `b`; `f` selects Fahrenheit bounds. */
  function MenuFsm(p: Panel, e: Shared, b: bv8, f: bool): (r: MenuStep)
    requires ValidStore(e.store) && PanelInv(p)
    ensures ValidStore(r.shared.store)
    ensures PanelInv(r.panel)
    ensures r.panel.isIdle <==> r.panel.state == Idle
    // the store changes only by toggling power or committing a value
    ensures r.shared.store != e.store ==> p.state in {PowerDownWait, SetConfigValue}
  {
    var p0 := p.(countdown := if p.countdown > 0 then p.countdown - 1 else 0);
    var r := if StatusState(p.state) then StatusStep(p0, e, b)
             else if BrowseState(p.state) then BrowseStep(p0, e, b, f)
             else EditStep(p0, e, b, f);
    MenuStep(r.panel.(isIdle := r.panel.state == Idle), r.shared, r.screen)
  }

  /** The version and the run state are shown only while their key stays
      down. */
  lemma StatusScreensEnd(p: Panel, e: Shared, b: bv8, f: bool)
    requires ValidStore(e.store) && PanelInv(p)
    ensures p.state == ShowStateUp ==> MenuFsm(p, e, b, f).panel.state == Idle
    ensures p.state == ShowVersion ==>
              MenuFsm(p, e, b, f).panel.state == (if Held(b, Up) then ShowVersion else Idle)
  {
  }

  /** A menu item's name is shown, then the machine waits for keys in the
      item browser with a fresh 15 s timeout. */
  lemma MenuItemShown(p: Panel, e: Shared, b: bv8, f: bool)
    requires ValidStore(e.store) && PanelInv(p) && p.state == ShowMenuItem
    ensures var r := MenuFsm(p, e, b, f);
      r.panel.state == SetMenuItem && r.panel.countdown == NoKeyTimeout && r.screen == MenuItemName(p.menuItem)
  {
  }

  /** Showing a configuration item loads its range-checked stored value for
      display. */
  lemma ConfigItemShown(p: Panel, e: Shared, b: bv8, f: bool)
    requires ValidStore(e.store) && PanelInv(p) && p.state == ShowConfigItem
    ensures var r := MenuFsm(p, e, b, f);
      && r.panel.state == ShowConfigValue && r.panel.ret == SetConfigItem
      && r.panel.countdown == NoKeyTimeout
      && r.panel.configValue == CheckedItem(p, e.store, f)
  {
  }

  /** Showing a value returns to the state that asked for it. */
  lemma ValueShownReturns(p: Panel, e: Shared, b: bv8, f: bool)
    requires ValidStore(e.store) && PanelInv(p) && p.state == ShowConfigValue
    ensures var r := MenuFsm(p, e, b, f);
      r.panel.state == p.ret && r.panel.countdown == NoKeyTimeout && r.screen == ConfigValueShown(p.configValue)
  {
  }

  /** Holding PWR in the power-down wait counts down, then toggles power. */
  lemma PowerWaitStep(p: Panel, e: Shared, f: bool)
    requires ValidStore(e.store) && PanelInv(p) && p.state == PowerDownWait && p.countdown >= 1
    ensures var r := MenuFsm(p, e, Pwr, f);
      p.countdown > 1 ==> r.panel.state == PowerDownWait && r.panel.countdown == p.countdown - 1 && r.shared == e
    ensures var r := MenuFsm(p, e, Pwr, f);
      p.countdown == 1 ==>
        && r.panel.state == Idle && r.shared.pwrOn == (Read(e.store, PowerOn) == 0)
        && Read(r.shared.store, PowerOn) == (if r.shared.pwrOn then 1 else 0)
  {
  }

  /** Without keys the menu-item browser counts down to idle. */
  lemma BrowserWaitStep(p: Panel, e: Shared, f: bool)
    requires ValidStore(e.store) && PanelInv(p) && p.state == SetMenuItem && p.countdown >= 1
    ensures var r := MenuFsm(p, e, 0, f);
      r.panel.state == (if p.countdown > 1 then SetMenuItem else Idle) && r.panel.countdown == p.countdown - 1
  {
  }

  /** A committed value is what the menu shows next: after SET stores the
      edited value, showing the item reads the same word back unchanged from
      the store (it already passes the range check). */
  lemma CommitIsShown(p: Panel, s: Store, b: bv8, f: bool)
    requires ValidStore(s) && p.state == SetConfigValue && p.countdown != 0
    requires p.menuItem <= MenuItemNo && p.configItem < ItemCount(p.menuItem)
    requires !Released(b, Pwr) && !HeldOrReleased(b, Up) && !HeldOrReleased(b, Down) && Released(b, Set)
    requires InBounds(p.configValue, MiCiToAddr(p.menuItem, p.configItem), f)
    ensures var r := SetConfigValueStep(p, s, b, f);
      && r.0.state == ShowConfigItem
      && CheckedItem(r.0, r.1, f) == r.0.configValue
      && (ItemAddr(p) != Addr(Rn) ==> r.0.configValue == p.configValue)
  {
    var r := SetConfigValueStep(p, s, b, f);
    ItemAddrInRange(p);
    assert InBounds(r.0.configValue, ItemAddr(p), f) by {
      if ItemAddr(p) == Addr(Rn) {
        assert MiCiToAddr(p.menuItem, p.configItem) == MenuItemAddr(Rn);
      }
    }
  }

  // ---- runs --------------------------------------------------------------------

  /** A run of steps under the button registers `bs`. */
  function MenuRun(p: Panel, e: Shared, bs: seq<bv8>, f: bool): (r: MenuStep)
    requires ValidStore(e.store) && PanelInv(p)
    ensures ValidStore(r.shared.store) && PanelInv(r.panel)
    decreases |bs|
  {
    if bs == [] then MenuStep(p, e, Unchanged)
    else
      var r := MenuFsm(p, e, bs[0], f);
      MenuRun(r.panel, r.shared, bs[1..], f)
  }

  /** Holding PWR through the power-down wait: 30 further steps with PWR
      held toggle the stored power flag. */
  lemma {:induction false} HoldPowerToggles(p: Panel, e: Shared, n: nat, f: bool)
    requires ValidStore(e.store) && PanelInv(p)
    requires p.state == PowerDownWait && p.countdown as nat == n >= 1
    ensures var r := MenuRun(p, e, seq(n, i => Pwr), f);
      r.panel.state == Idle && r.shared.pwrOn == (Read(e.store, PowerOn) == 0)
      && Read(r.shared.store, PowerOn) == (if r.shared.pwrOn then 1 else 0)
    decreases n
  {
    var bs := seq(n, i => Pwr);
    var r := MenuFsm(p, e, Pwr, f);
    PowerWaitStep(p, e, f);
    assert bs[0] == Pwr;
    if n == 1 {
      assert bs[1..] == [];
    } else {
      assert bs[1..] == seq(n - 1, i => Pwr);
      HoldPowerToggles(r.panel, r.shared, n - 1, f);
    }
  }

  /** A long PWR press from idle: the press and 30 held steps (3 s) toggle
      power. */
  lemma LongPressTogglesPower(p: Panel, e: Shared, f: bool)
    requires ValidStore(e.store) && PanelInv(p) && p.state == Idle
    ensures var r := MenuRun(p, e, [0x04 as bv8] + seq(30, i => Pwr), f);
      r.panel.state == Idle && r.shared.pwrOn == (Read(e.store, PowerOn) == 0)
  {
    var bs := [0x04 as bv8] + seq(30, i => Pwr);
    var r := MenuFsm(p, e, 0x04, f);
    assert r.panel.state == PowerDownWait && r.panel.countdown == 30;
    assert bs[1..] == seq(30, i => Pwr);
    HoldPowerToggles(r.panel, r.shared, 30, f);
  }

  /** Without key activity the menu gives up: from the menu-item browser
      with `n` steps left on the timer, `n` steps without keys return to
      idle. */
  lemma {:induction false} BrowsingTimesOut(p: Panel, e: Shared, n: nat, f: bool)
    requires ValidStore(e.store) && PanelInv(p)
    requires p.state == SetMenuItem && p.countdown as nat == n >= 1
    ensures MenuRun(p, e, seq(n, i => 0 as bv8), f).panel.state == Idle
    decreases n
  {
    var bs := seq(n, i => 0 as bv8);
    assert bs[0] == 0;
    var r := MenuFsm(p, e, 0, f);
    BrowserWaitStep(p, e, f);
    if n == 1 {
      assert bs[1..] == [];
    } else {
      assert bs[1..] == seq(n - 1, i => 0 as bv8);
      BrowsingTimesOut(r.panel, r.shared, n - 1, f);
    }
  }
}
