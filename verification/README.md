# W3230 thermostat and PID controller core, in Dafny

This project models the integer control logic of the W3230 firmware. The
firmware runs a dual-probe thermostat with temperature profiles and a
PID-driven solid-state relay on an 8-bit microcontroller. Its C `int` is 16
bits wide, so every `int16_t`, `uint16_t`, `uint8_t` and `int32_t` truncation
is written out with the wrap helpers of module `Ints`.

The modules follow the firmware:

- `Layout`: the configuration address space. It holds six profiles of nine
  (setpoint, duration) steps plus a final setpoint, then the 23 named
  parameters of the menu table, then the power-on word. It also holds the
  item kinds and the address macros.
- `Config`: the configuration store, a sequence of `int16` words addressed by
  a byte. It also holds the roll-over range check `range` /
  `check_config_value`, the unit-dependent bounds and the first-boot image.
- `Buttons`: the 8-bit button history register (`read_buttons`) and the
  idle / pressed / held / released predicates on it.
- `Display`: `divu10` (shift-and-add division by ten) and the repeated
  subtraction of `val_to_bcd`. The three digit positions of `value_to_led`
  are modelled as abstract glyphs.
- `Menu`: `menu_fsm`, the 100 ms menu state machine. It covers status
  screens, long-press power toggling, the profile and parameter browser,
  value editing with key acceleration, and committing a value (including
  the run-mode side effects). What the display shows is an abstract
  `Screen` value.
- `Thermostat`: the level-based `temperature_control` the firmware calls, and
  the seven-state `temperature_control2` transition diagram. Both use
  `min_to_sec` and the delay countdown of `init_temp_delays`.
- `Pid`: `init_pid` (integer branches) and `pid_ctrl`, the Takahashi type-C
  recurrence with its 16-bit truncation and `[0, lim]` clamp. Also
  `pid_control`, which re-initialises on a gain change, recomputes the
  output limit and fires every `ts` calls.
- `Profile`: `update_profile`, with its step switching and 64-substep ramp,
  and `prfl_task`, which calls it every minute or every 60th minute.
- `Control`: `pid_to_time` (the slow PWM), the fault, setpoint-alarm, fan and
  PID-gating logic of `ctrl_task`, and the arithmetic of `one_wire_task`.
- `Comms`: line assembly in `rs232_command_handler`, the `process_string`
  tokenizer on top of a model of the C library's `strtol`, and the command
  routing of `execute_single_command`.
- `Counter`: the `uint8_t` call counter behind `pid_control` and `prfl_task`.
- `Arith`: division and multiplication facts used by the proofs.

Inputs the firmware gets from hardware or from code that is not modelled
become parameters:

- the button port;
- the probe temperatures and their range-error flags;
- the raw one-wire reading;
- the power flag;
- the `minutes` time base (read from an `HrS` item that is not in the menu
  table);
- the rounded floating-point PID gains;
- the UART receive-buffer size.

Four details of the code are easy to misread from its comments and
declarations. The model follows the code in each:

- The slow PWM of `pid_to_time` has a period of 127 ticks of 100 ms, not the
  12.5 s its header comment gives (w3230_main.c:274). Each phase lasts its
  timer value plus one tick (`Control.PwmCycle`).
- `pid_ctrl` is declared with an `ena` flag (pid.h:30) but defined without
  one (pid.c:91). The flag `pid_control` passes (w3230_lib.c:991) never
  reaches the controller, so the PID integrates whatever the thermostat does.
- The output limit `(hp_lim * 1000L) / hp_tot` (w3230_lib.c:986) is an
  integer division, so it truncates.
- `check_config_value` lets `St` go up to `NO_OF_TT_PAIRS` = 9
  (w3230_lib.c:384), one past the last step index. `update_profile` forces a
  larger step back to 8 (w3230_lib.c:271).

## Model

| member | source | states |
|---|---|---|
| Layout.IsTemperatureKind | w3230_lib.h:72-87 | The "is temperature" test (kind code at most that of `t_sp_alarm`) holds exactly for the temperature, temperature-difference, two hysteresis and setpoint-alarm kinds |
| Layout.ParamAtOrdinal | w3230_lib.h:120-152 | Reading the menu table at a parameter's enum position gives that parameter back |
| Layout.OrdinalBijective | w3230_lib.h:120-152 | The 23 `menu_enum` positions are distinct: two parameters with the same position are the same parameter |
| Layout.TemperatureParams | w3230_lib.h:120-143 | The parameters displayed as temperatures are exactly SP, hy, hy2, tc, tc2, SA, FLo and FHI |
| Layout.ProfileAddressesDistinct | w3230_lib.h:158-160 | For p < 6 and s < 9, the setpoint (19p + 2s) and duration (+1) addresses are pairwise distinct and all lie below the parameter block |
| Layout.MenuAddresses | w3230_lib.h:158-166 | The parameter block starts at 114, each parameter sits at 114 plus its ordinal, and the power-on word is 137. `MI_CI_TO_EEADR(6, ci)` is the parameter address; for mi < 6 it is the profile's setpoint or duration slot; every valid item address lies below 137 |
| Config.Range | w3230_lib.c:326-331 | Roll-over, not saturation: above max gives min, below min gives max, otherwise the value is kept; the result always lies in [min, max] |
| Config.RangeRollsOver | w3230_lib.c:326-331 | The roll-over is idempotent; one past max lands on min and one below min lands on max |
| Config.ProfileSlot | w3230_lib.c:347-350 | Repeatedly subtracting PROFILE_SIZE yields the address modulo 19 |
| Config.CheckConfigValue | w3230_lib.c:340-394 | The result lies in the bounds of its address's class, and a value already inside them is returned unchanged |
| Config.CelsiusWithinFahrenheit | w3230_lib.h:31-47 | Every Celsius bound interval lies inside the matching Fahrenheit interval |
| Config.CheckConfigBoundsTable | w3230_lib.c:340-394 | Concrete ranges after the check: profile setpoint -400..1400 (C) or -400..2500 (F); duration 0..999; tempdiff, hysteresis and alarm per unit; boolean 0..1; delay 0..60; run mode 0..6; step 0..9; parameter 0..9999 |
| Config.ParamDefaultsInBounds | w3230_lib.h:120-143 | Every parameter default lies inside its Celsius bounds |
| Config.ProfileDefaultsSmall | w3230_lib.c:39-44 | Every word of the default profile lies in 0..250 |
| Config.DefaultWordInBounds | w3230_lib.c:36-46 | Each first-boot word below the power-on word passes the range check unchanged |
| Config.DefaultImageFacts | w3230_lib.c:36-46 | The first-boot image has St = 0, dh = 0, rn = 6 (thermostat mode) and power on, and all of it passes the range check unchanged |
| Buttons.ReadButtons | w3230_lib.c:403-412 | The new register's upper nibble is the old lower nibble; its lower nibble marks exactly the keys whose (active-low) port bit reads 0 |
| Buttons.KeysDisjoint | w3230_lib.h:169-172 | The four key masks are pairwise disjoint and cover the byte; each has one bit per nibble |
| Buttons.KeyStates | w3230_lib.h:174-179 | IDLE: not down now or before. PRESSED: down now only. HELD: down in both samples. RELEASED: down before only. HELD_OR_RELEASED: down in the previous sample |
| Buttons.ExactlyOneState | w3230_lib.h:175-178 | For every key exactly one of idle, pressed, held and released holds |
| Buttons.PressSequence | w3230_lib.c:403-412 | A key down across two reads is reported held, and one let go after that is reported released |
| Display.Divu10 | w3230_lib.c:100-110 | The shift-and-add routine returns exactly n / 10 for every 16-bit n |
| Display.ShiftApprox | w3230_lib.c:104-107 | The shift estimate q satisfies 0 <= n - 10q <= 13 |
| Display.Correction | w3230_lib.c:108-109 | The rounding term (r + 6) >> 4 adds exactly the missing unit when the estimate is 13 or less short |
| Display.ValToBcd | w3230_lib.c:160-175 | Above the digit, the glyph is the low nibble of the quotient and the rest is the remainder (compared unsigned); below it the value is kept and a zero or a blank is shown |
| Display.ThreeDigits | w3230_lib.c:223-225 | For 0..999: hundreds shown without a leading zero, tens shown from 10 up, units always shown, each the correct decimal digit |
| Counter.Divide | w3230_lib.c:989-993 | The `uint8_t` counter fires and restarts at 0 exactly when the incremented count reaches or passes the period (so a lowered period fires on the next call); otherwise it just counts. From 255 it wraps to 0 |
| Counter.DivideFiresEveryPeriod | w3230_main.c:457-463 | Started below its period, the counter fires (count + n) / period times in n calls |
| Menu.StartInv | w3230_lib.c:54-60 | The power-up menu variables satisfy the panel invariant |
| Menu.ItemAddrInRange | w3230_lib.c:574 | The byte address of a valid (menu item, config item) equals the exact one and lies below the power-on word |
| Menu.CheckedItem | w3230_lib.c:574-576 | The value loaded for display passes its address's range check, in the current unit system and in the Fahrenheit superset |
| Menu.IdleStep | w3230_lib.c:430-450 | The power flag is reloaded from the store. A PWR press starts the 3 s power-down wait. Without power nothing else happens. With power and a key down: UP shows the version, else DOWN shows the run state for 1.5 s, else a released SET enters the menu, and a menu is entered only that way. With none of these keys the panel is unchanged. The panel invariant is kept |
| Menu.NextSensor | w3230_lib.c:465-467 | The second-display source cycles 0, 1, 2, 3, 0 |
| Menu.PowerDownStep | w3230_lib.c:452-470 | When the countdown has run out, the stored power flag is toggled and power-on restarts both relay delays at 60 s. A PWR let go earlier selects the next display source, with the store untouched; a held PWR keeps waiting |
| Menu.ShowStateStep | w3230_lib.c:480-517 | The status screens leave the store alone. Releasing DOWN returns to idle. The step screen follows the run-mode screen only when a profile is running |
| Menu.SetMenuItemStep | w3230_lib.c:537-554 | The menu item stays in 0..6 and UP/DOWN wrap it modulo 7. The timeout or PWR returns to idle. SET enters the item at config item 0, and only SET does |
| Menu.SkipStepItems | w3230_lib.c:622-632 | In thermostat mode the parameter index never rests on St or dh; otherwise, and away from those two, it is unchanged |
| Menu.ItemUp | w3230_lib.c:589-607 | UP wraps the item within 0..18 in a profile and within 0..22 (with the thermostat-mode hop) in the parameter menu |
| Menu.ItemDown | w3230_lib.c:608-635 | DOWN wraps the item the other way within the same ranges |
| Menu.ConfigItemKeys | w3230_lib.c:582-641 | Item-browser keys: the timeout goes to idle, PWR to the menu list, UP and DOWN to the next or previous item with its value shown. SET, and only SET, starts editing with a 15 s timeout |
| Menu.SetConfigItemStep | w3230_lib.c:582-646 | Same transitions, and afterwards the held value is the selected item's range-checked stored word; the panel invariant holds |
| Menu.AdjustValue | w3230_lib.c:676-695 | An in-range value moves by one while the acceleration timer has not run out and the value stays at most 1000, and by ten once it has run out or above 1000. Stepping up from the upper bound gives the lower bound and down from the lower bound the upper. The timer counts down only while the value is at most 1000, and wraps from -128 to 127 as an `int8_t` |
| Menu.CommitRunMode | w3230_lib.c:699-713 | Writing run mode clears St and dh. Choosing profile r copies its step-0 setpoint into SP and yields 6 instead of r if step 0's duration is 0. No other word changes |
| Menu.SetConfigValueStep | w3230_lib.c:669-724 | Only a released SET changes the store, and it stores the (run-mode-adjusted) held value at the item's address. UP/DOWN adjust through the range check. The held value always stays within the item's bounds |
| Menu.RunModeItem | w3230_lib.c:699-701 | The selected address is the run-mode word exactly when the parameter menu is open at rn |
| Menu.CommitValue | w3230_lib.c:697-718 | The commit writes the held value (after the run-mode side effects) at the item's address, keeps it within bounds and returns to showing the item |
| Menu.StatusStep | w3230_lib.c:427-517 | Outside the configuration menu only the power-down wait writes the store. The unused up-state and the version screen return to idle once UP is no longer held |
| Menu.BrowseStep | w3230_lib.c:519-667 | Showing names and values and browsing menu items never touches the store, the power flag or the delays, and keeps the panel invariant |
| Menu.EditStep | w3230_lib.c:582-724 | Choosing and editing items changes only the store, and only in the value editor |
| Menu.MenuFsm | w3230_lib.c:421-731 | One step keeps the panel invariant: menu item 0..6, config item inside its menu, held value within its bounds. `menu_is_idle` mirrors the idle state. The store changes only on a power toggle or a value commit |
| Menu.StatusScreensEnd | w3230_lib.c:472-478 | The version screen stays only while UP is held; the unhandled up-state falls back to idle |
| Menu.MenuItemShown | w3230_lib.c:519-535 | Showing a menu item's name moves to the item browser with a fresh 15 s timeout |
| Menu.ConfigItemShown | w3230_lib.c:556-580 | Showing a configuration item loads its range-checked stored value and returns to the item browser after display |
| Menu.ValueShownReturns | w3230_lib.c:648-667 | Showing a value returns to the state that asked for it with a fresh timeout |
| Menu.PowerWaitStep | w3230_lib.c:452-470 | With PWR held the wait counts down, and the last count toggles the stored power flag |
| Menu.BrowserWaitStep | w3230_lib.c:537-541 | Without keys the menu-item browser counts down and drops to idle at zero |
| Menu.CommitIsShown | w3230_lib.c:697-718 | After a commit, showing the item reads back exactly the stored value, unchanged by the range check (and equal to the edited value except for run mode) |
| Menu.MenuRun | w3230_lib.c:421-731 | Any sequence of steps keeps the store valid and the panel invariant |
| Menu.HoldPowerToggles | w3230_lib.c:452-470 | Holding PWR for the rest of the wait toggles the stored power flag and returns to idle |
| Menu.LongPressTogglesPower | w3230_lib.c:432-436 | From idle, a PWR press followed by 30 held samples (3 s) toggles power |
| Menu.BrowsingTimesOut | w3230_lib.c:537-541 | n steps without keys, with n steps left on the timer, return the menu-item browser to idle |
| Thermostat.MinToSec | w3230_lib.c:738-745 | `(m << 6) - (m << 6 >> 4)` in 16 bits is 60 * m for every m below 1024 |
| Thermostat.ReloadDelays | w3230_lib.c:858-859 | The reload values are 60 * hd and 60 * cd seconds for in-range parameters |
| Thermostat.CountDown | w3230_lib.c:752-760 | Each running delay loses one second; an expired one stays at zero |
| Thermostat.TemperatureControl | w3230_lib.c:849-875 | Power off, or an active relay's stop condition, turns both relays off, reloads the delays and disables the PID. Otherwise a running relay keeps running. From idle a relay switches on exactly when it is wanted and its delay has run out. Switching heating on enables the PID; otherwise a wanted cooling disables it and else it is kept. The cached second hysteresis is left halved. With hysteresis >= 0 the relays are never both on |
| Thermostat.WantsAreExclusive | w3230_lib.c:865-874 | With hysteresis >= 0, one call never asks for both cooling and heating |
| Thermostat.NegativeHysteresisWantsBoth | w3230_lib.c:868-872 | With a negative hysteresis a temperature at the setpoint asks for both, so the hysteresis bound is needed |
| Thermostat.Decrement | w3230_lib.c:916-917 | The pre-decrement test: a non-zero delay loses one second and expires at zero; a zero delay wraps to 65535 as written, or expires at once when corrected |
| Thermostat.Tc2Step | w3230_lib.c:883-955 | Heating-side states (delay, ambient-warm, heating) move only among themselves or to Off, and the same holds for the cooling side. Off clears both relays and reloads the delays. Only Heating and Cooling switch a relay on |
| Thermostat.TemperatureControl2AsWritten | w3230_lib.c:883-955 | The diagram as written keeps each side closed except for the return to Off |
| Thermostat.TemperatureControl2 | w3230_lib.c:883-955 | The corrected diagram keeps the same side closure |
| Thermostat.Tc2KeepsRelaysConsistent | w3230_lib.c:893-953 | One call keeps each relay on only in its own side's active states or Off, and never both on |
| Thermostat.Tc2RunKeepsRelaysConsistent | w3230_lib.c:893-953 | HEAT and COOL are never both asserted, however many calls run and whatever the probes and the store do between them |
| Thermostat.DelayHeatReachesHeating | w3230_lib.c:912-918 | With the corrected countdown, a d-second heating delay ends in Heating after max(d, 1) calls that all find it too cold (the store may change between them) |
| Thermostat.DelayCoolReachesCooling | w3230_lib.c:925-931 | With the corrected countdown, a d-second cooling delay ends in Cooling after max(d, 1) calls that all find it too warm |
| Thermostat.ZeroDelayWraps | w3230_lib.c:916-917 | As written, a zero heating delay wraps to 65535 and the diagram stays in the delay state; corrected, it starts heating |
| Thermostat.ZeroCoolDelayWraps | w3230_lib.c:929-930 | As written, a zero cooling delay wraps to 65535 and the diagram stays in the delay state; corrected, it starts cooling |
| Thermostat.ZeroParameterGivesZeroDelay | w3230_lib.c:893-909 | With hd = 0, Off loads a zero heating delay and moves to the heating delay state, which reaches the wrap |
| Thermostat.OffTooCold | w3230_lib.c:893-909 | Too cold (below SP - hy, hy >= 0) without a second probe, Off moves to the heating delay state |
| Pid.InitPid | pid.c:51-89 | ki = 0 when ti = 0 and kd = 0 when ts = 0 (else the rounded gains), and both history samples equal the current reading |
| Pid.Clamp | pid.c:119-120 | The output is limited to [0, lim] and an output already inside is kept |
| Pid.IncrementAsComputed | pid.c:114-117 | The 16-bit/32-bit computed increment is congruent modulo 2^16 to kc(yk1 - yk) + ki(tset - yk) + kd(2yk1 - yk - yk2) |
| Pid.IncrementWraps | pid.c:114-117 | Every intermediate truncation (16-bit differences, 32-bit products, 16-bit sum) preserves that congruence |
| Pid.PidCtrl | pid.c:91-124 | After the step 0 <= uk <= lim whenever lim >= 0, yk2 becomes the old yk1 and yk1 becomes yk |
| Pid.PidCtrlIsTypeC | pid.c:105-117 | Without overflow the output is exactly the clamped type-C recurrence |
| Pid.SteadyStateHolds | pid.c:114-120 | With yk = yk1 = yk2 = tset the output is unchanged apart from clamping |
| Pid.InitThenSteady | pid.c:51-124 | Right after initialisation at the setpoint, an in-range output is left unchanged by the first step |
| Pid.PidLimit | w3230_lib.c:980-987 | The limit is 1000 when the total power is 0, else hp_lim * 1000 / hp_tot, which lies in 0..1000 when hp_lim <= hp_tot |
| Pid.LimitAtMost1000 | w3230_lib.c:984-987 | The quotient is non-negative, and at most 1000 when hp_lim <= hp_tot |
| Pid.CurrentPid | w3230_lib.c:971-979 | A change of Kc, Ti or Td restarts the controller from the current temperature; otherwise its state is kept |
| Pid.PidControl | w3230_lib.c:967-994 | The parameter copies follow the store. The controller runs exactly when the `uint8_t` timer reaches ts. A run makes one `pid_ctrl` step from the (restarted if the gains changed) controller towards the setpoint within the current limit; its output lies in [0, limit] and the temperature is recorded. No run leaves the output alone |
| Pid.PidControlFollowsTypeC | w3230_lib.c:989-992 | Without overflow, a run moves the output by the exact type-C increment of the controller it runs with, then limits it |
| Profile.CurStep | w3230_lib.c:267-271 | The step index used is always below 9 |
| Profile.StepBase | w3230_lib.c:273-275 | The step's setpoint, duration and next-setpoint words lie inside the profile area |
| Profile.RampLoopCounts | w3230_lib.c:295-307 | The 64-iteration loop adds the next setpoint min(64, t / d) times and the current setpoint the rest |
| Profile.RampSetpoint | w3230_lib.c:291-310 | The ramped SP is (32 + k * next + (64 - k) * cur) >> 6 with k = ((64 * elapsed) mod 2^16) / dur in 0..63, and it lies between cur and next |
| Profile.RampMean | w3230_lib.c:295-308 | The rounded mean of the loop lies between the two setpoints |
| Profile.RampWeightBelow64 | w3230_lib.c:294 | Inside the step the weight on the next setpoint is below 64 |
| Profile.RampWeightNoWrap | w3230_lib.c:294 | For elapsed below 1024, `curr_dur << 6` does not wrap, so k = floor(64 * elapsed / dur) |
| Profile.EndStep | w3230_lib.c:277-290 | SP becomes the next setpoint. On the last step (step 8, or next duration 0) rn becomes 6 and dh is not written; otherwise St increments and dh resets to 0. Only SP, St, dh and rn change |
| Profile.WithinStep | w3230_lib.c:291-312 | dh advances by one; SP ramps only when rP is set. Only SP and dh change |
| Profile.UpdateProfile | w3230_lib.c:252-314 | Does nothing in thermostat mode. Otherwise it ends the step or advances within it as above, and never touches a word other than SP, St, dh, rn |
| Profile.InsideStep | w3230_lib.c:265-312 | A call inside the step keeps the profile, the step and its words, and adds one to dh |
| Profile.StepLastsItsDuration | w3230_lib.c:252-314 | A step of duration D entered at dh = e ends after exactly D - e calls, with SP the next setpoint and either the next step begun or thermostat mode set |
| Profile.DefaultProfileScenario | w3230_lib.c:39 | Default profile 0 from step 0: after 24 calls SP is 170, St is 1 and dh is 0 |
| Profile.PrflTask | w3230_main.c:450-465 | In minutes mode every call updates the profile; in hours mode the update happens exactly when the `uint8_t` minute counter reaches 60 |
| Control.HighTime | w3230_main.c:286 | For pid_out in 0..1000 the high time pid_out >> 3 is pid_out / 8, at most 125 |
| Control.PidToTime | w3230_main.c:279-309 | The SSR follows the phase: off in state 0, on in state 1. It leaves off only at the end of the low time with a non-zero high time and power on. It leaves on only at the end of the high time with a non-zero low time or power off. The timers load pid_out / 8 and 125 - pid_out / 8 |
| Control.LowPhase | w3230_main.c:290-298 | The low phase counts its timer down with the relay off |
| Control.HighPhase | w3230_main.c:299-307 | The high phase keeps the relay on for its timer plus one tick, then loads the low time |
| Control.PwmCycle | w3230_main.c:279-309 | With power on and 8 <= pid_out < 1000, a full cycle is 127 ticks with the relay on for pid_out / 8 + 1 of them |
| Control.PowerOffStaysOff | w3230_main.c:294 | With power off, a relay that is off stays off |
| Control.SixteenthsToTenths | w3230_main.c:491-493 | (5 * raw + 4) >> 3 is the reading in tenths of a degree, rounded, within half a tenth |
| Control.OneWireTask | w3230_main.c:479-497 | `one_wire_task` alternates between starting a conversion and reading; only the read phase updates the reading |
| Control.SetpointAlarm | w3230_main.c:381-399 | For SA > 0 the alarm sounds iff abs(temp - sp) >= SA; for SA < 0 iff abs(temp - sp) <= -SA |
| Control.FanControl | w3230_main.c:374-380 | The fan switches on at or above FHI and off at or below FLo, and otherwise keeps its state |
| Control.CtrlTask | w3230_main.c:331-442 | A probe fault sets the alarm, switches the relays off and sets both delays to 60, and skips thermostat, fan and PID. Otherwise the thermostat runs; fan control runs when FAn is set; SA = 0 silences the alarm, else the alarm uses the cached or stored setpoint by time base. Ts = 0 forces pid_out to 0 and keeps the PID state, otherwise the PID wrapper advances; the UART override wins. The one-wire task runs either way |
| Comms.ToLower | comms.c:81 | Upper-case ASCII letters map to lower case and everything else is unchanged |
| Comms.ReceiveChar | comms.c:74-103 | '\r' is ignored. '\n' hands the line over as a command and resets it. Any other character is stored lower-cased; a line reaching the last buffer cell is dropped, so the write index never exceeds UART_BUFLEN - 1 |
| Comms.ReceiveString | comms.c:74-103 | However many characters arrive, the collected line stays below UART_BUFLEN - 1 |
| Comms.TypedLineIsDelivered | comms.c:74-103 | A command typed on an empty line and ended by '\n' is delivered lower-cased, as the only command |
| Comms.StrToLOfRender | comms.c:135-141 | `strtol` reads a rendered number back exactly, in base 10 or 16 |
| Comms.ScanTo | comms.c:129 | The scan stops at the first space (or '=') before the length, or at the length |
| Comms.StrLen | comms.c:125 | The command length is `strlen` kept in a `uint8_t`: it counts no NUL, and a line of fewer than 256 characters without one is counted whole |
| Comms.ProcessString | comms.c:122-143 | Works on the C string, so a NUL ends the command. With no ' ' or '=' the count is 1, the word is the whole string and both numbers are 0. Otherwise the word is the prefix before the first separator; '=' gives count 2 with no second number, and a count of 3 needs a space |
| Comms.DecimalOperandRoundTrip | comms.c:133-137 | `word=n` splits into the word and n (as a `uint16_t`) with count 2 |
| Comms.TwoOperands | comms.c:138-142 | `word a b` with hex operands at given positions splits into the word, a and b |
| Comms.HexOperandsRoundTrip | comms.c:138-142 | Rendering `word a b` in hex and splitting it gives back the word, a and b |
| Comms.EepBlock | comms.c:150-173 | The dump of item num has 19 words (profile) or 23 words (parameters), word i read from num * 19 + i |
| Comms.ExecuteCommand | comms.c:186-284 | "sp" with an operand writes SP and the cached setpoint, and echoes. "pid" above 1000 clears the override, otherwise fixes the output. rb/rw/wb/ww and unknown two-letter words return NO_ERR and change nothing. 'p' dumps for num <= 6; 's' with num > 3 gives ERR_NUM; 'v' writes the byte address without any range check and changes nothing else, not even the cached setpoint; any other letter gives ERR_CMD. Only sp and v write the store |
| Comms.NulEndsCommand | comms.c:125-128 | A NUL inside the line ends the command: `v5`, a NUL and `=7` is the one-item command `v5` and writes nothing |
| Comms.SetpointRoundTrip | comms.c:198-207 | `sp=n` stores n in SP and the cached setpoint, and a following `sp` echoes n |
| Comms.PidOverride | comms.c:208-225 | `pid=n` fixes the output at n for n <= 1000 and hands control back to the PID for larger n, without touching the store |

## Left out

- The 7-segment display is left out: glyph bit patterns, `led_lookup`, `prx_to_led`, and the sign, decimal-point and divide-by-ten handling of `value_to_led`. The menu's display writes become an abstract `Screen` value. Only the digit extraction of `value_to_led` for 0..999 is modelled (`Display.ThreeDigits`).
- `led_control` and the LED flashing in `enable_cooling`, `enable_heating` and `temperature_control2` are output only.
- GPIO, the timer interrupt, clock set-up, the display multiplexer and `main` are hardware set-up.
- ADC sampling and `ad_to_temp` are hardware; probe temperatures and their error flags are inputs.
- The I2C, DS2482 and DS18B20 drivers are bus I/O. The one-wire raw value is an input; the one-wire fault flag is only printed.
- The EEPROM driver and the scheduler are not shown in the source. The store is a sequence of 256 `int16` words, the reach of a byte address, and each task is an explicit function call.
- The float gain computation in `init_pid` is left out; the rounded gains are inputs.
- The `rb`/`rw`/`wb`/`ww` commands dereference arbitrary pointers. They are routed (status NO_ERR) but their effect is the opaque reply `RawMemory`.
- `sprintf`/`xputs` formatting, `print_value10`, the version string, `i2c_scan` and `list_all_tasks` are output only. Replies are abstract `Reply` values.
- The copy of the command word into the 10-byte buffer `s3` is not bounds-checked in the source; the model keeps the whole word.
- The `HrS` time-base item read by `ctrl_task` is not in the menu table. The `minutes` flag is an input.
- The Fahrenheit flag is read from CF at the start of `ctrl_task`. The menu takes it as a parameter.
- Thermostat.TemperatureControl: the sums sp + hy, sp - hy and sp +/- hy2 are compared as unbounded integers. The firmware's 16-bit `int` would wrap only for parameter values far outside their range-checked bounds.
- Thermostat.MinToSec: the contract states 60 * m only for 0 <= m < 1024; the range check keeps the delay parameters in 0..60.
- Control.SetpointAlarm: the alarm is characterised only when temp - sp fits an `int16_t` and neither it nor SA is -32768; otherwise the model follows the 16-bit negation without a stated property.
- Control.HighTime: the value is stated only for pid_out in 0..1000, the range `pid_ctrl` and the `pid` command produce.
- Pid.PidCtrlIsTypeC: the exact recurrence is stated only when no intermediate overflows its C type. In general only congruence modulo 2^16 is stated (`Pid.IncrementWraps`).
- Menu.CommitRunMode: the setpoint copy is stated for run modes 0..5. A negative held value cannot reach it, because the range check keeps run mode in 0..6.
- Menu.MenuFsm: the contract states the invariants and the store-change frame. The per-state transitions are stated by the state functions and the transition lemmas.
- Menu.BrowseStep: only the frame and the invariant are stated here. The individual transitions are in `Menu.MenuItemShown`, `Menu.ConfigItemShown`, `Menu.ValueShownReturns` and `Menu.SetMenuItemStep`.
- Profile.StepLastsItsDuration: stated for steps 0..7 with dh >= 0 and a duration below 32768, where no 16-bit wrap intervenes.
- Comms.ReceiveString: only the buffer bound is stated for arbitrary input; delivery is stated for one line by `Comms.TypedLineIsDelivered`.
- The C library's `strtol` and `atoi` are modelled on a 32-bit `long` that saturates on overflow.
- An empty command line: the firmware then reads `s[1]` (for `isalpha` and `atoi`) from a buffer byte past the terminator, left over from an earlier line. The model reads a NUL there, so an empty line gives ERR_CMD.

## Findings

| source | as written | input that shows it | evidently intended | confidence | as-written member | corrected member |
|---|---|---|---|---|---|---|
| w3230_lib.c:916-917 | `--heating_delay == 0` decrements before testing, so a heating delay that is already 0 wraps to 65535 | heating delay parameter hd = 0 with the temperature below SP - hy and no second probe: Off loads a zero delay, then the delay state wraps it to 65535 and waits about 18 hours before heating | a zero delay expires at once and heating starts | not executed | Thermostat.ZeroDelayWraps | Thermostat.DelayHeatReachesHeating |
| w3230_lib.c:929-930 | `--cooling_delay == 0` has the same shape on the cooling side | cooling delay 0 in the cooling delay state with the temperature above SP and no second probe: the delay wraps to 65535 | a zero delay expires at once and cooling starts | not executed | Thermostat.ZeroCoolDelayWraps | Thermostat.DelayCoolReachesCooling |

`Thermostat.TemperatureControl2AsWritten` is the diagram as written. `Thermostat.TemperatureControl2` is the corrected diagram, whose countdown saturates at zero. The firmware itself calls the level-based `temperature_control`, which does not have this defect.
