/** The configuration address space: six temperature profiles of nine
    (setpoint, duration) steps plus a final setpoint, then the 23 named
    parameters of the parameter menu, then the power-on word. */
module Layout {
  import opened Ints

  const NoOfProfiles: nat := 6
  const NoOfTtPairs: nat := 9
  const ProfileSize: nat := 2 * NoOfTtPairs + 1
  /** The menu item that selects the parameter menu (after the profiles). */
  const MenuItemNo: nat := NoOfProfiles
  /** Run mode value meaning "no profile running". */
  const ThermostatMode: nat := NoOfProfiles
  /** Number of entries of the parameter table. */
  const MenuSize: nat := 23

  /** The kinds of parameter values, in the order (and with the codes) of the
      firmware's item-type enumeration. */
  datatype ItemKind =
    | Temperature | TempDiff | Hyst1 | Hyst2 | SpAlarm
    | Step | Delay | RunMode | Duration | Boolean | Parameter

  function KindCode(k: ItemKind): nat
  {
    match k
    case Temperature => 0
    case TempDiff => 1
    case Hyst1 => 2
    case Hyst2 => 3
    case SpAlarm => 4
    case Step => 5
    case Delay => 6
    case RunMode => 7
    case Duration => 8
    case Boolean => 9
    case Parameter => 10
  }

  /** A kind whose values are shown as temperatures (one decimal): the
      firmware tests "code at most that of the setpoint-alarm kind". */
  function IsTemperatureKind(k: ItemKind): (b: bool)
    ensures b <==> (k == Temperature || k == TempDiff || k == Hyst1 || k == Hyst2 || k == SpAlarm)
  {
    KindCode(k) <= KindCode(SpAlarm)
  }

  /** The named parameters, in table order. */
  datatype Param =
    | SP | Hy | Hy2 | Tc | Tc2 | SA | St | Dh | Cd | Hd | RP | CF | Pb2
    | Hc | Ti | Td | Ts | FAn | FLo | FHi | HPL | HPt | Rn

  /** Position of a parameter in the table. */
  function Ordinal(p: Param): (i: nat)
    ensures i < MenuSize
  {
    match p
    case SP => 0   case Hy => 1   case Hy2 => 2  case Tc => 3   case Tc2 => 4
    case SA => 5   case St => 6   case Dh => 7   case Cd => 8   case Hd => 9
    case RP => 10  case CF => 11  case Pb2 => 12 case Hc => 13  case Ti => 14
    case Td => 15  case Ts => 16  case FAn => 17 case FLo => 18 case FHi => 19
    case HPL => 20 case HPt => 21 case Rn => 22
  }

  /** The parameter at a table position: the inverse of Ordinal. */
  function ParamAt(i: nat): (p: Param)
    requires i < MenuSize
    ensures Ordinal(p) == i
  {
    match i
    case 0 => SP   case 1 => Hy   case 2 => Hy2  case 3 => Tc   case 4 => Tc2
    case 5 => SA   case 6 => St   case 7 => Dh   case 8 => Cd   case 9 => Hd
    case 10 => RP  case 11 => CF  case 12 => Pb2 case 13 => Hc  case 14 => Ti
    case 15 => Td  case 16 => Ts  case 17 => FAn case 18 => FLo case 19 => FHi
    case 20 => HPL case 21 => HPt case _ => Rn
  }

  /** ParamAt undoes Ordinal. */
  lemma ParamAtOrdinal(p: Param)
    ensures ParamAt(Ordinal(p)) == p
  {
  }

  /** Ordinals are a bijection between the parameters and 0..22. */
  lemma OrdinalBijective(p: Param, q: Param)
    ensures ParamAt(Ordinal(p)) == p
    ensures Ordinal(p) == Ordinal(q) ==> p == q
  {
    ParamAtOrdinal(p);
    ParamAtOrdinal(q);
  }

  /** Value kind of each parameter. */
  function KindOf(p: Param): ItemKind
  {
    match p
    case SP => Temperature  case Hy => Hyst1      case Hy2 => Hyst2
    case Tc => TempDiff     case Tc2 => TempDiff  case SA => SpAlarm
    case St => Step         case Dh => Duration   case Cd => Delay
    case Hd => Delay        case RP => Boolean    case CF => Boolean
    case Pb2 => Boolean     case Hc => Parameter  case Ti => Parameter
    case Td => Parameter    case Ts => Parameter  case FAn => Parameter
    case FLo => Temperature case FHi => Temperature
    case HPL => Parameter   case HPt => Parameter case Rn => RunMode
  }

  /** Built-in default of each parameter. */
  function DefaultOf(p: Param): int16
  {
    match p
    case SP => 200  case Hy => 5    case Hy2 => 20  case Tc => -8   case Tc2 => -1
    case SA => 0    case St => 0    case Dh => 0    case Cd => 5    case Hd => 2
    case RP => 1    case CF => 0    case Pb2 => 0   case Hc => 80   case Ti => 140
    case Td => 10   case Ts => 20   case FAn => 1   case FLo => 300 case FHi => 350
    case HPL => 150 case HPt => 500 case Rn => NoOfProfiles as int16
  }

  /** The parameters shown as temperatures are exactly SP, the two
      hysteresis values, the two probe corrections, the setpoint alarm and the
      two fan limits. */
  lemma TemperatureParams(p: Param)
    ensures IsTemperatureKind(KindOf(p)) <==> p in {SP, Hy, Hy2, Tc, Tc2, SA, FLo, FHi}
  {
  }

  // ---- addresses ----------------------------------------------------------

  function ProfileSetpointAddr(profile: nat, step: nat): nat
  {
    profile * ProfileSize + step * 2
  }

  function ProfileDurationAddr(profile: nat, step: nat): nat
  {
    ProfileSetpointAddr(profile, step) + 1
  }

  /** First word of the parameter block. */
  const MenuBase: nat := ProfileSetpointAddr(NoOfProfiles, 0)

  function MenuItemAddr(p: Param): nat
  {
    MenuBase + Ordinal(p)
  }

  /** The power-on word follows the last parameter. */
  const PowerOnAddr: nat := MenuItemAddr(Rn) + 1

  /** Address of item `ci` of menu item `mi` (a profile or the parameter menu). */
  function MiCiToAddr(mi: nat, ci: nat): nat
  {
    mi * ProfileSize + ci
  }

  /** Number of config items under a menu item: a whole profile, or the
      parameter table. */
  function ItemCount(mi: nat): (n: nat)
    ensures n == ProfileSize || n == MenuSize
  {
    if mi < MenuItemNo then ProfileSize else MenuSize
  }

  /** Step addresses of different (profile, step) pairs never collide, the
      duration word sits right after its setpoint, and all of them lie below
      the parameter block. */
  lemma ProfileAddressesDistinct(p: nat, s: nat, p': nat, s': nat)
    requires p < NoOfProfiles && s < NoOfTtPairs
    requires p' < NoOfProfiles && s' < NoOfTtPairs
    ensures ProfileDurationAddr(p, s) == ProfileSetpointAddr(p, s) + 1
    ensures ProfileSetpointAddr(p, s) != ProfileDurationAddr(p', s')
    ensures (p, s) != (p', s') ==> ProfileSetpointAddr(p, s) != ProfileSetpointAddr(p', s')
    ensures (p, s) != (p', s') ==> ProfileDurationAddr(p, s) != ProfileDurationAddr(p', s')
    ensures ProfileDurationAddr(p, s) < MenuBase
  {
    if p < p' {
      assert ProfileSetpointAddr(p, s) + 2 <= ProfileSetpointAddr(p', 0);
    } else if p' < p {
      assert ProfileSetpointAddr(p', s') + 2 <= ProfileSetpointAddr(p, 0);
    }
  }

  /** The parameter block starts at 114, each parameter sits at 114 plus its
      ordinal, the power-on word is 137, and menu item 6 addresses the
      parameter block while menu items 0..5 address their profile's slots. */
  lemma MenuAddresses(p: Param, mi: nat, ci: nat)
    ensures MenuBase == 114 && PowerOnAddr == 137
    ensures MenuItemAddr(p) == 114 + Ordinal(p) < PowerOnAddr
    ensures MiCiToAddr(MenuItemNo, Ordinal(p)) == MenuItemAddr(p)
    ensures mi < NoOfProfiles && ci < ProfileSize && ci % 2 == 0 ==>
              MiCiToAddr(mi, ci) == ProfileSetpointAddr(mi, ci / 2)
    ensures mi < NoOfProfiles && ci < ProfileSize && ci % 2 == 1 ==>
              MiCiToAddr(mi, ci) == ProfileDurationAddr(mi, ci / 2)
    ensures mi <= MenuItemNo && ci < ItemCount(mi) ==> MiCiToAddr(mi, ci) < PowerOnAddr
  {
  }
}
