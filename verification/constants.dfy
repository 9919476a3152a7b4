/** The static control registry of `keba_keenergy_api/constants.py`: the
    endpoints, the three integer enumerations used for human-readable
    values, the dot-path prefix of every control group, the `ControlValue`
    record of every control, and the `SystemPrefix` key prefixes. The
    Python module finds a group's prefix, response-key stem and `Position`
    field by reflection on the class name (a CamelCase-to-snake regular
    expression and `importlib`); here those three are static tables indexed
    by the group. */
module Constants {
  import opened Wrappers
  import opened Text

  const ApiDefaultTimeout: nat := 10

  const ReadValuesEndpoint: string := "/var/readWriteVars"
  const WriteValuesEndpoint: string := "/var/readWriteVars?action=set"
  const DeviceInfoEndpoint: string := "/deviceControl?action=getDeviceInfo"
  const SystemInfoEndpoint: string := "/swupdate?action=getSystemInstalled"

  // ---------------------------------------------------------------------------
  // Integer enumerations
  // ---------------------------------------------------------------------------

  datatype IntEnum = HotWaterTankOperatingMode | HeatPumpStatus | HeatCircuitOperatingMode

  /** The members of an enumeration as (name, code) pairs in declaration order. */
  function Members(e: IntEnum): seq<(string, int)> {
    match e
    case HotWaterTankOperatingMode => [("OFF", 0), ("AUTO", 1), ("ON", 2), ("HEAT_UP", 3)]
    case HeatPumpStatus => [("STANDBY", 0), ("FLOW", 1), ("AUTO", 2)]
    case HeatCircuitOperatingMode =>
      [("OFF", 0), ("AUTO", 1), ("DAY", 2), ("NIGHT", 3), ("AWAY", 4), ("PARTY", 5)]
  }

  function FindByCode(ms: seq<(string, int)>, code: int): Option<string> {
    if |ms| == 0 then None
    else if ms[0].1 == code then Some(ms[0].0)
    else FindByCode(ms[1..], code)
  }

  function FindByName(ms: seq<(string, int)>, name: string): Option<int> {
    if |ms| == 0 then None
    else if ms[0].0 == name then Some(ms[0].1)
    else FindByName(ms[1..], name)
  }

  /** `E(code).name`: the member carrying `code`, or `None` where Python
      raises `ValueError`. */
  function EnumName(e: IntEnum, code: int): Option<string> {
    FindByCode(Members(e), code)
  }

  /** `E[name].value`: the code of the member called exactly `name`, or
      `None` where Python raises `KeyError`. */
  function EnumCode(e: IntEnum, name: string): Option<int> {
    FindByName(Members(e), name)
  }

  /** Codes run 0, 1, 2, ... in declaration order. */
  ghost predicate Contiguous(ms: seq<(string, int)>) {
    forall k :: 0 <= k < |ms| ==> ms[k].1 == k
  }

  ghost predicate DistinctNames(ms: seq<(string, int)>) {
    forall i, j :: 0 <= i < j < |ms| ==> ms[i].0 != ms[j].0
  }

  lemma MembersWellFormed(e: IntEnum)
    ensures Contiguous(Members(e))
    ensures DistinctNames(Members(e))
    ensures forall k :: 0 <= k < |Members(e)| ==> |Members(e)[k].0| > 0
  {
  }

  ghost predicate ContiguousFrom(ms: seq<(string, int)>, base: int) {
    forall k :: 0 <= k < |ms| ==> ms[k].1 == base + k
  }

  lemma {:induction false} FindByCodeRange(ms: seq<(string, int)>, base: int, code: int)
    requires ContiguousFrom(ms, base)
    ensures FindByCode(ms, code).Some? <==> base <= code < base + |ms|
    ensures base <= code < base + |ms| ==> FindByCode(ms, code) == Some(ms[code - base].0)
    decreases |ms|
  {
    if |ms| > 0 && ms[0].1 != code {
      assert ContiguousFrom(ms[1..], base + 1) by {
        forall k | 0 <= k < |ms[1..]| ensures ms[1..][k].1 == base + 1 + k {
          assert ms[1..][k] == ms[k + 1];
        }
      }
      FindByCodeRange(ms[1..], base + 1, code);
    }
  }

  lemma {:induction false} FindByNameIndex(ms: seq<(string, int)>, k: int)
    requires DistinctNames(ms)
    requires 0 <= k < |ms|
    ensures FindByName(ms, ms[k].0) == Some(ms[k].1)
    decreases |ms|
  {
    if k > 0 {
      assert ms[0].0 != ms[k].0;
      assert DistinctNames(ms[1..]) by {
        forall i, j | 0 <= i < j < |ms[1..]| ensures ms[1..][i].0 != ms[1..][j].0 {
          assert ms[1..][i] == ms[i + 1] && ms[1..][j] == ms[j + 1];
        }
      }
      assert ms[1..][k - 1] == ms[k];
      FindByNameIndex(ms[1..], k - 1);
    }
  }

  lemma {:induction false} FindByNameFound(ms: seq<(string, int)>, name: string)
    requires FindByName(ms, name).Some?
    ensures exists k :: 0 <= k < |ms| && ms[k].0 == name && ms[k].1 == FindByName(ms, name).value
    decreases |ms|
  {
    if ms[0].0 != name {
      FindByNameFound(ms[1..], name);
      var k :| 0 <= k < |ms[1..]| && ms[1..][k].0 == name && ms[1..][k].1 == FindByName(ms, name).value;
      assert ms[k + 1] == ms[1..][k];
    }
  }

  /** Each enumeration covers exactly the codes 0 .. n-1, with n the number
      of members: 4 hot-water-tank modes, 3 heat-pump states and 6
      heat-circuit modes. */
  lemma EnumCodes(e: IntEnum, code: int)
    ensures EnumName(e, code).Some? <==> 0 <= code < |Members(e)|
    ensures 0 <= code < |Members(e)| ==> EnumName(e, code) == Some(Members(e)[code].0)
    ensures e == HotWaterTankOperatingMode ==> |Members(e)| == 4
    ensures e == HeatPumpStatus ==> |Members(e)| == 3
    ensures e == HeatCircuitOperatingMode ==> |Members(e)| == 6
  {
    MembersWellFormed(e);
    assert ContiguousFrom(Members(e), 0);
    FindByCodeRange(Members(e), 0, code);
  }

  /** Looking a member up by name and by code are inverse to each other:
      names map to codes injectively and every code has one name. */
  lemma EnumNameCodeInverse(e: IntEnum, name: string, code: int)
    ensures EnumName(e, code) == Some(name) <==> EnumCode(e, name) == Some(code)
  {
    var ms := Members(e);
    MembersWellFormed(e);
    assert ContiguousFrom(ms, 0);
    FindByCodeRange(ms, 0, code);
    if EnumName(e, code) == Some(name) {
      FindByNameIndex(ms, code);
    }
    if EnumCode(e, name) == Some(code) {
      FindByNameFound(ms, name);
      var k :| 0 <= k < |ms| && ms[k].0 == name && ms[k].1 == code;
      assert ms[k].1 == k;
    }
  }

  // ---------------------------------------------------------------------------
  // Groups and controls
  // ---------------------------------------------------------------------------

  /** The five control classes; each is one dot-path prefix. */
  datatype Group = OptionsGroup | OutdoorGroup | HotWaterTankGroup | HeatPumpGroup | HeatCircuitGroup

  datatype OptionsKey = HotWaterTankNumbers | HeatPumpNumbers | HeatCircuitNumbers

  datatype OutdoorKey = Temperature

  datatype HotWaterTankKey = Temperature | OperatingMode | MinTemperature | MaxTemperature

  datatype HeatPumpKey =
    | Name | Status | CirculationPump | InflowTemperature | RefluxTemperature
    | SourceInputTemperature | SourceOutputTemperature
    | CompressorInputTemperature | CompressorOutputTemperature
    | Compressor | HighPressure | LowPressure

  datatype HeatCircuitKey =
    | Name | Temperature | DayTemperature | DayTemperatureThreshold
    | NightTemperature | NightTemperatureThreshold | HolidayTemperature
    | OffsetTemperature | OperatingMode

  /** A control is a member of one of the five enumerations (`Control` is
      their union in the source). */
  datatype Control =
    | Options(options: OptionsKey)
    | Outdoor(outdoor: OutdoorKey)
    | HotWaterTank(hotWaterTank: HotWaterTankKey)
    | HeatPump(heatPump: HeatPumpKey)
    | HeatCircuit(heatCircuit: HeatCircuitKey)

  datatype ValueKind = FloatKind | IntKind | StrKind

  /** The `ControlValue` record, with the source's defaults: a control is
      read-only and has no enumeration unless it says otherwise. */
  datatype ControlValue = ControlValue(
    suffix: string,
    kind: ValueKind,
    readOnly: bool := true,
    humanReadable: Option<IntEnum> := None)

  /** `type(control)`. */
  function GroupOf(c: Control): Group {
    match c
    case Options(_) => OptionsGroup
    case Outdoor(_) => OutdoorGroup
    case HotWaterTank(_) => HotWaterTankGroup
    case HeatPump(_) => HeatPumpGroup
    case HeatCircuit(_) => HeatCircuitGroup
  }

  /** `control.value`: the registry entry of every control. */
  function Spec(c: Control): ControlValue {
    match c
    case Options(k) => OptionsSpec(k)
    case Outdoor(k) => ControlValue("values.actValue", FloatKind)
    case HotWaterTank(k) => HotWaterTankSpec(k)
    case HeatPump(k) => HeatPumpSpec(k)
    case HeatCircuit(k) => HeatCircuitSpec(k)
  }

  function OptionsSpec(k: OptionsKey): ControlValue {
    match k
    case HotWaterTankNumbers => ControlValue("systemNumberOfHotWaterTanks", IntKind)
    case HeatPumpNumbers => ControlValue("systemNumberOfHeatPumps", IntKind)
    case HeatCircuitNumbers => ControlValue("systemNumberOfHeatingCircuits", IntKind)
  }

  function HotWaterTankSpec(k: HotWaterTankKey): ControlValue {
    match k
    case Temperature => ControlValue("topTemp.values.actValue", FloatKind)
    case OperatingMode =>
      ControlValue("param.operatingMode", IntKind, readOnly := false,
                   humanReadable := Some(HotWaterTankOperatingMode))
    case MinTemperature => ControlValue("param.reducedSetTempMax.value", FloatKind, readOnly := false)
    case MaxTemperature => ControlValue("param.normalSetTempMax.value", FloatKind, readOnly := false)
  }

  function HeatPumpSpec(k: HeatPumpKey): ControlValue {
    match k
    case Name => ControlValue("param.name", StrKind)
    case Status =>
      ControlValue("values.heatpumpState", IntKind, readOnly := false,
                   humanReadable := Some(HeatPumpStatus))
    case CirculationPump => ControlValue("CircPump.values.setValueScaled", FloatKind)
    case InflowTemperature => ControlValue("TempHeatFlow.values.actValue", FloatKind)
    case RefluxTemperature => ControlValue("TempHeatReflux.values.actValue", FloatKind)
    case SourceInputTemperature => ControlValue("TempSourceIn.values.actValue", FloatKind)
    case SourceOutputTemperature => ControlValue("TempSourceOut.values.actValue", FloatKind)
    case CompressorInputTemperature => ControlValue("TempCompressorIn.values.actValue", FloatKind)
    case CompressorOutputTemperature => ControlValue("TempCompressorOut.values.actValue", FloatKind)
    case Compressor => ControlValue("Compressor.values.setValueScaled", FloatKind)
    case HighPressure => ControlValue("HighPressure.values.actValue", FloatKind)
    case LowPressure => ControlValue("LowPressure.values.actValue", FloatKind)
  }

  function HeatCircuitSpec(k: HeatCircuitKey): ControlValue {
    match k
    case Name => ControlValue("param.name", StrKind)
    case Temperature => ControlValue("values.setValue", FloatKind)
    case DayTemperature => ControlValue("param.normalSetTemp", FloatKind, readOnly := false)
    case DayTemperatureThreshold => ControlValue("param.thresholdDayTemp.value", FloatKind)
    case NightTemperature => ControlValue("param.reducedSetTemp", FloatKind, readOnly := false)
    case NightTemperatureThreshold => ControlValue("param.thresholdNightTemp.value", FloatKind)
    case HolidayTemperature => ControlValue("param.holidaySetTemp", FloatKind)
    case OffsetTemperature => ControlValue("param.offsetRoomTemp", FloatKind, readOnly := false)
    case OperatingMode =>
      ControlValue("param.operatingMode", IntKind, readOnly := false,
                   humanReadable := Some(HeatCircuitOperatingMode))
  }

  /** `control.name`: the enumeration member's own name. */
  function MemberName(c: Control): string {
    match c
    case Options(k) => (
      match k
      case HotWaterTankNumbers => "HOT_WATER_TANK_NUMBERS"
      case HeatPumpNumbers => "HEAT_PUMP_NUMBERS"
      case HeatCircuitNumbers => "HEAT_CIRCUIT_NUMBERS")
    case Outdoor(k) => "TEMPERATURE"
    case HotWaterTank(k) => (
      match k
      case Temperature => "TEMPERATURE"
      case OperatingMode => "OPERATING_MODE"
      case MinTemperature => "MIN_TEMPERATURE"
      case MaxTemperature => "MAX_TEMPERATURE")
    case HeatPump(k) => HeatPumpName(k)
    case HeatCircuit(k) => HeatCircuitName(k)
  }

  function HeatPumpName(k: HeatPumpKey): string {
    match k
    case Name => "NAME"
    case Status => "STATUS"
    case CirculationPump => "CIRCULATION_PUMP"
    case InflowTemperature => "INFLOW_TEMPERATURE"
    case RefluxTemperature => "REFLUX_TEMPERATURE"
    case SourceInputTemperature => "SOURCE_INPUT_TEMPERATURE"
    case SourceOutputTemperature => "SOURCE_OUTPUT_TEMPERATURE"
    case CompressorInputTemperature => "COMPRESSOR_INPUT_TEMPERATURE"
    case CompressorOutputTemperature => "COMPRESSOR_OUTPUT_TEMPERATURE"
    case Compressor => "COMPRESSOR"
    case HighPressure => "HIGH_PRESSURE"
    case LowPressure => "LOW_PRESSURE"
  }

  function HeatCircuitName(k: HeatCircuitKey): string {
    match k
    case Name => "NAME"
    case Temperature => "TEMPERATURE"
    case DayTemperature => "DAY_TEMPERATURE"
    case DayTemperatureThreshold => "DAY_TEMPERATURE_THRESHOLD"
    case NightTemperature => "NIGHT_TEMPERATURE"
    case NightTemperatureThreshold => "NIGHT_TEMPERATURE_THRESHOLD"
    case HolidayTemperature => "HOLIDAY_TEMPERATURE"
    case OffsetTemperature => "OFFSET_TEMPERATURE"
    case OperatingMode => "OPERATING_MODE"
  }

  /** `control.__class__.__name__`. */
  function ClassName(g: Group): string {
    match g
    case OptionsGroup => "Options"
    case OutdoorGroup => "Outdoor"
    case HotWaterTankGroup => "HotWaterTank"
    case HeatPumpGroup => "HeatPump"
    case HeatCircuitGroup => "HeatCircuit"
  }

  // ---------------------------------------------------------------------------
  // Prefixes
  // ---------------------------------------------------------------------------

  const ParamRoot: string := "APPL.CtrlAppl.sParam."

  const OptionsPrefix: string := ParamRoot + "options"
  const OutdoorPrefix: string := ParamRoot + "outdoorTemp"
  const HotWaterTankPrefix: string := ParamRoot + "hotWaterTank"
  const HeatPumpPrefix: string := ParamRoot + "heatpump"
  const HeatCircuitPrefix: string := ParamRoot + "heatCircuit"

  /** `_get_key_prefix`: the `*_PREFIX` constant named after the group. The
      reflective lookup falls back to the empty string, but every group has
      its constant, so the fallback is never taken. */
  function KeyPrefix(g: Group): string {
    match g
    case OptionsGroup => OptionsPrefix
    case OutdoorGroup => OutdoorPrefix
    case HotWaterTankGroup => HotWaterTankPrefix
    case HeatPumpGroup => HeatPumpPrefix
    case HeatCircuitGroup => HeatCircuitPrefix
  }

  /** The group part of every prefix: what follows the parameter root. */
  function PrefixLeaf(g: Group): string {
    KeyPrefix(g)[|ParamRoot|..]
  }

  predicate IsLetter(c: char) {
    IsUpperChar(c) || IsLowerChar(c)
  }

  /** Every prefix is the common parameter root followed by a non-empty,
      letters-only leaf, and distinct groups have distinct leaves; so no
      leaf extends another and a dot-path determines its group. */
  lemma KeyPrefixUnderRoot(g: Group, h: Group)
    ensures StartsWith(KeyPrefix(g), ParamRoot)
    ensures KeyPrefix(g) == ParamRoot + PrefixLeaf(g)
    ensures |PrefixLeaf(g)| > 0
    ensures forall i :: 0 <= i < |PrefixLeaf(g)| ==> IsLetter(PrefixLeaf(g)[i])
    ensures g != h ==> PrefixLeaf(g) != PrefixLeaf(h)
  {
    assert KeyPrefix(g)[..|ParamRoot|] == ParamRoot;
    assert PrefixLeaf(g) == LeafTable(g);
    assert PrefixLeaf(h) == LeafTable(h);
    LeafLetters(g);
    if g != h {
      LeafDistinct(g, h);
    }
  }

  function LeafTable(g: Group): string {
    match g
    case OptionsGroup => "options"
    case OutdoorGroup => "outdoorTemp"
    case HotWaterTankGroup => "hotWaterTank"
    case HeatPumpGroup => "heatpump"
    case HeatCircuitGroup => "heatCircuit"
  }

  lemma LeafLetters(g: Group)
    ensures |LeafTable(g)| > 0
    ensures forall i :: 0 <= i < |LeafTable(g)| ==> IsLetter(LeafTable(g)[i])
  {
  }

  lemma LeafDistinct(g: Group, h: Group)
    requires g != h
    ensures LeafTable(g) != LeafTable(h)
  {
    // Leaves of equal length differ in their first letters.
    assert LeafTable(g)[0] != LeafTable(h)[0] || |LeafTable(g)| != |LeafTable(h)|;
  }

  /** The group's class name in upper snake case ("HotWaterTank" becomes
      "HOT_WATER_TANK"): the stem `_get_real_key` puts in front of a member
      name. */
  function GroupStem(g: Group): string {
    match g
    case OptionsGroup => "OPTIONS"
    case OutdoorGroup => "OUTDOOR"
    case HotWaterTankGroup => "HOT_WATER_TANK"
    case HeatPumpGroup => "HEAT_PUMP"
    case HeatCircuitGroup => "HEAT_CIRCUIT"
  }

  /** The group's class name in lower snake case: the `Position` field that
      `_get_position_index` looks up for the group. */
  function PositionKey(g: Group): string {
    match g
    case OptionsGroup => "options"
    case OutdoorGroup => "outdoor"
    case HotWaterTankGroup => "hot_water_tank"
    case HeatPumpGroup => "heat_pump"
    case HeatCircuitGroup => "heat_circuit"
  }

  /** `SystemPrefix`: the key prefix of each group. */
  function SystemPrefix(g: Group): string {
    match g
    case OptionsGroup => "OPTIONS_"
    case OutdoorGroup => "OUTDOOR_"
    case HotWaterTankGroup => "HOT_WATER_TANK_"
    case HeatPumpGroup => "HEAT_PUMP_"
    case HeatCircuitGroup => "HEAT_CIRCUIT_"
  }

  /** Every `SystemPrefix` is the group's upper snake-case stem followed by
      `_`. */
  lemma SystemPrefixIsStem(g: Group)
    ensures SystemPrefix(g) == GroupStem(g) + "_"
  {
  }

  /** Two distinct groups' `SystemPrefix` strings disagree at a position
      both have, so neither is a prefix of the other. */
  lemma SystemPrefixesDiverge(g: Group, h: Group) returns (k: nat)
    requires g != h
    ensures k < |SystemPrefix(g)| && k < |SystemPrefix(h)|
    ensures SystemPrefix(g)[k] != SystemPrefix(h)[k]
  {
    var heat := {HeatPumpGroup, HeatCircuitGroup};
    if g in heat && h in heat {
      k := 5;
    } else if g.OptionsGroup? || h.OptionsGroup? {
      k := if g.OutdoorGroup? || h.OutdoorGroup? then 1 else 0;
    } else if g.OutdoorGroup? || h.OutdoorGroup? {
      k := 0;
    } else {
      k := 1;
    }
  }

  /** The lower snake-case `Position` field of a group is its upper
      snake-case stem lower-cased. */
  lemma PositionKeyIsLowerStem(g: Group)
    ensures PositionKey(g) == Lower(GroupStem(g))
  {
    var l := Lower(GroupStem(g));
    match g
    case OptionsGroup =>
      assert l[0] == 'o' && l[1] == 'p' && l[2] == 't' && l[3] == 'i' && l[4] == 'o' && l[5] == 'n' && l[6] == 's';
    case OutdoorGroup =>
      assert l[0] == 'o' && l[1] == 'u' && l[2] == 't' && l[3] == 'd' && l[4] == 'o' && l[5] == 'o' && l[6] == 'r';
    case HotWaterTankGroup =>
      assert l[0] == 'h' && l[1] == 'o' && l[2] == 't' && l[3] == '_' && l[4] == 'w' && l[5] == 'a' && l[6] == 't';
      assert l[7] == 'e' && l[8] == 'r' && l[9] == '_' && l[10] == 't' && l[11] == 'a' && l[12] == 'n' && l[13] == 'k';
    case HeatPumpGroup =>
      assert l[0] == 'h' && l[1] == 'e' && l[2] == 'a' && l[3] == 't' && l[4] == '_';
      assert l[5] == 'p' && l[6] == 'u' && l[7] == 'm' && l[8] == 'p';
    case HeatCircuitGroup =>
      assert l[0] == 'h' && l[1] == 'e' && l[2] == 'a' && l[3] == 't' && l[4] == '_' && l[5] == 'c';
      assert l[6] == 'i' && l[7] == 'r' && l[8] == 'c' && l[9] == 'u' && l[10] == 'i' && l[11] == 't';
  }

  // ---------------------------------------------------------------------------
  // Registry facts
  // ---------------------------------------------------------------------------

  /** The eight controls a client may write. */
  predicate IsWritable(c: Control) {
    || c == HotWaterTank(HotWaterTankKey.OperatingMode)
    || c == HotWaterTank(MinTemperature)
    || c == HotWaterTank(MaxTemperature)
    || c == HeatPump(Status)
    || c == HeatCircuit(DayTemperature)
    || c == HeatCircuit(NightTemperature)
    || c == HeatCircuit(OffsetTemperature)
    || c == HeatCircuit(HeatCircuitKey.OperatingMode)
  }

  /** `read_only` defaults to true and exactly the eight writable controls
      override it. */
  lemma WritableExactly(c: Control)
    ensures !Spec(c).readOnly <==> IsWritable(c)
  {
  }

  /** A human-readable enumeration is only declared on integer controls, and
      each enumeration belongs to exactly one control. */
  lemma HumanReadableControls(c: Control)
    ensures Spec(c).humanReadable.Some? ==> Spec(c).kind == IntKind
    ensures Spec(c).humanReadable == Some(HotWaterTankOperatingMode)
            <==> c == HotWaterTank(HotWaterTankKey.OperatingMode)
    ensures Spec(c).humanReadable == Some(HeatPumpStatus) <==> c == HeatPump(Status)
    ensures Spec(c).humanReadable == Some(HeatCircuitOperatingMode)
            <==> c == HeatCircuit(HeatCircuitKey.OperatingMode)
  {
  }

  /** Within a group, path suffixes and member names are distinct, so a
      (group, suffix) or (group, name) pair identifies the control. */
  lemma SuffixesDistinct(c: Control, d: Control)
    requires GroupOf(c) == GroupOf(d)
    ensures Spec(c).suffix == Spec(d).suffix ==> c == d
    ensures MemberName(c) == MemberName(d) ==> c == d
  {
    match c
    case Options(a) => OptionsDistinct(a, d.options);
    case Outdoor(_) =>
    case HotWaterTank(a) => HotWaterTankDistinct(a, d.hotWaterTank);
    case HeatPump(a) =>
      var b := d.heatPump;
      HeatPumpSuffixes(a, b);
      HeatPumpNames(a, b);
    case HeatCircuit(a) =>
      var b := d.heatCircuit;
      HeatCircuitSuffixes(a, b);
      HeatCircuitNames(a, b);
  }

  lemma OptionsDistinct(a: OptionsKey, b: OptionsKey)
    ensures OptionsSpec(a).suffix == OptionsSpec(b).suffix ==> a == b
    ensures MemberName(Options(a)) == MemberName(Options(b)) ==> a == b
  {
  }

  lemma HotWaterTankDistinct(a: HotWaterTankKey, b: HotWaterTankKey)
    ensures HotWaterTankSpec(a).suffix == HotWaterTankSpec(b).suffix ==> a == b
    ensures MemberName(HotWaterTank(a)) == MemberName(HotWaterTank(b)) ==> a == b
  {
  }

  /** Heat-pump suffixes are pairwise distinct. The twelve controls give
      144 pairs of suffix literals, more than one solver query handles
      within its budget, so the cases are split by the first control into
      the three groups below. */
  lemma HeatPumpSuffixes(a: HeatPumpKey, b: HeatPumpKey)
    ensures HeatPumpSpec(a).suffix == HeatPumpSpec(b).suffix ==> a == b
  {
    if a.Name? || a.Status? || a.CirculationPump? || a.InflowTemperature? {
      HeatPumpSuffixesA(a, b);
    } else if a.RefluxTemperature? || a.SourceInputTemperature? || a.SourceOutputTemperature? {
      HeatPumpSuffixesB(a, b);
    } else {
      HeatPumpSuffixesC(a, b);
    }
  }

  lemma HeatPumpSuffixesA(a: HeatPumpKey, b: HeatPumpKey)
    requires a.Name? || a.Status? || a.CirculationPump? || a.InflowTemperature?
    ensures HeatPumpSpec(a).suffix == HeatPumpSpec(b).suffix ==> a == b
  {
  }

  lemma HeatPumpSuffixesB(a: HeatPumpKey, b: HeatPumpKey)
    requires a.RefluxTemperature? || a.SourceInputTemperature? || a.SourceOutputTemperature?
    ensures HeatPumpSpec(a).suffix == HeatPumpSpec(b).suffix ==> a == b
  {
  }

  lemma HeatPumpSuffixesC(a: HeatPumpKey, b: HeatPumpKey)
    requires a.CompressorInputTemperature? || a.CompressorOutputTemperature? || a.Compressor?
             || a.HighPressure? || a.LowPressure?
    ensures HeatPumpSpec(a).suffix == HeatPumpSpec(b).suffix ==> a == b
  {
  }

  lemma HeatPumpNames(a: HeatPumpKey, b: HeatPumpKey)
    ensures HeatPumpName(a) == HeatPumpName(b) ==> a == b
  {
  }

  lemma HeatCircuitSuffixes(a: HeatCircuitKey, b: HeatCircuitKey)
    ensures HeatCircuitSpec(a).suffix == HeatCircuitSpec(b).suffix ==> a == b
  {
  }

  lemma HeatCircuitNames(a: HeatCircuitKey, b: HeatCircuitKey)
    ensures HeatCircuitName(a) == HeatCircuitName(b) ==> a == b
  {
  }

  /** The group an `Options` count describes. */
  function CountedGroup(k: OptionsKey): (g: Group)
    ensures g in {HotWaterTankGroup, HeatPumpGroup, HeatCircuitGroup}
  {
    match k
    case HotWaterTankNumbers => HotWaterTankGroup
    case HeatPumpNumbers => HeatPumpGroup
    case HeatCircuitNumbers => HeatCircuitGroup
  }

  const NumbersSuffix: string := "_NUMBERS"

  /** `get_positions` turns each count's member name into a `Position` field
      with `replace("_NUMBERS", "").lower()`; the result is the lower
      snake-case name of the group the count describes. */
  lemma OptionsKeyField(k: OptionsKey)
    ensures MemberName(Options(k)) == GroupStem(CountedGroup(k)) + NumbersSuffix
    ensures Lower(RemoveAll(MemberName(Options(k)), NumbersSuffix)) == PositionKey(CountedGroup(k))
  {
    var g := CountedGroup(k);
    OptionsNameSplit(k);
    RemoveAllTrailing(GroupStem(g), NumbersSuffix, 4);
    PositionKeyIsLowerStem(g);
  }

  /** Each count's member name is its group's stem followed by `_NUMBERS`,
      and the letter `B` of that suffix occurs in no stem. */
  lemma OptionsNameSplit(k: OptionsKey)
    ensures MemberName(Options(k)) == GroupStem(CountedGroup(k)) + NumbersSuffix
    ensures 'B' !in GroupStem(CountedGroup(k))
    ensures NumbersSuffix[4] == 'B'
    ensures forall i :: 0 <= i < |NumbersSuffix| && NumbersSuffix[i] == 'B' ==> i == 4
  {
  }
}
