/** The older `keba_keyenergy_api` client: one request per value, built by
    `BaseEndpoint._get_payload` under a fixed per-section payload type, and
    posted to the base URL followed by an optional endpoint. */
module Legacy {
  import opened Wrappers
  import opened Text
  import opened Constants
  import opened Paths
  import opened Api

  /** The three sections the legacy client knows. */
  datatype LegacySection = LegacyHotWaterTank | LegacyHeatPump | LegacyHeatCircuit

  /** The group of the current client a legacy section corresponds to. */
  function SectionGroup(s: LegacySection): Group {
    match s
    case LegacyHotWaterTank => HotWaterTankGroup
    case LegacyHeatPump => HeatPumpGroup
    case LegacyHeatCircuit => HeatCircuitGroup
  }

  /** The `payload_type` each section passes to `BaseEndpoint`. */
  function PayloadType(s: LegacySection): string {
    match s
    case LegacyHotWaterTank => "APPL.CtrlAppl.sParam.hotWaterTank"
    case LegacyHeatPump => "APPL.CtrlAppl.sParam.heatpump"
    case LegacyHeatCircuit => "APPL.CtrlAppl.sParam.heatCircuit"
  }

  /** Each legacy payload type is the current client's prefix for the same
      group, so the two clients address the same variables. */
  lemma PayloadTypeIsKeyPrefix(s: LegacySection)
    ensures PayloadType(s) == KeyPrefix(SectionGroup(s))
  {
  }

  /** One element of a legacy payload: a `name` and, for a write, a
      `value`. */
  datatype LegacyEntry = LegacyEntry(name: string, value: Option<string>)

  /** `(position - 1) if position else 0`: `None` and `0` both select the
      first device. */
  function LegacyIndex(position: Option<int>): (r: int)
    ensures position.None? || position == Some(0) ==> r == 0
    ensures position.Some? && position.value != 0 ==> r == position.value - 1
  {
    if position.Some? && position.value != 0 then position.value - 1 else 0
  }

  /** `_get_payload`: a one-element list whose name is always indexed and
      which carries a value exactly when one is given. */
  function LegacyPayload(payloadType: string, position: Option<int>, key: string, value: Option<string>)
    : (r: seq<LegacyEntry>)
    ensures |r| == 1
    ensures r[0].value.Some? <==> value.Some?
    ensures value.Some? ==> r[0].value == value
  {
    [LegacyEntry(payloadType + "[" + IntToString(LegacyIndex(position)) + "]." + key, value)]
  }

  /** A legacy name is the current client's dot-path for the same group,
      key and 0-based index; the legacy client never sends an un-indexed
      name. */
  lemma LegacyNameIsPath(s: LegacySection, position: Option<int>, key: string, value: Option<string>)
    ensures LegacyPayload(PayloadType(s), position, key, value)[0].name
            == PathOf(SectionGroup(s), Some(LegacyIndex(position)), key)
  {
    PayloadTypeIsKeyPrefix(s);
    var t, n := PayloadType(s), IntToString(LegacyIndex(position));
    assert IndexText(Some(LegacyIndex(position))) == "[" + n + "]";
    assert t + "[" + n + "]." + key == t + ("[" + n + "]") + "." + key;
  }

  /** For a control of the section's group, a legacy request for the
      control's suffix at position `p` names the same variable the current
      client reads at wire index `p - 1`. */
  lemma LegacyAgreesWithDotPath(s: LegacySection, c: Control, p: int, value: Option<string>)
    requires GroupOf(c) == SectionGroup(s)
    requires p != 0
    ensures LegacyPayload(PayloadType(s), Some(p), Spec(c).suffix, value)[0].name == DotPath(c, Some(p - 1))
  {
    LegacyNameIsPath(s, Some(p), Spec(c).suffix, value);
  }

  /** The name determines the section, the index and the key. */
  lemma LegacyNameInjective(s: LegacySection, i: Option<int>, k: string, t: LegacySection, j: Option<int>, l: string)
    requires LegacyPayload(PayloadType(s), i, k, None)[0].name == LegacyPayload(PayloadType(t), j, l, None)[0].name
    ensures s == t && LegacyIndex(i) == LegacyIndex(j) && k == l
  {
    LegacyNameIsPath(s, i, k, None);
    LegacyNameIsPath(t, j, l, None);
    PathOfInjective(SectionGroup(s), Some(LegacyIndex(i)), k, SectionGroup(t), Some(LegacyIndex(j)), l);
  }

  /** The API object's own payload type and the outdoor temperature it
      reads. */
  const LegacyRoot: string := "APPL.CtrlAppl.sParam"
  const LegacyOutdoorName: string := LegacyRoot + ".outdoorTemp.values.actValue"

  /** The outdoor name is the current client's un-indexed outdoor
      temperature path. */
  lemma LegacyOutdoorAgrees()
    ensures LegacyOutdoorName == DotPath(Outdoor(OutdoorKey.Temperature), None)
  {
    assert DotPath(Outdoor(OutdoorKey.Temperature), None) == OutdoorPrefix + "" + "." + "values.actValue";
  }

  // ---------------------------------------------------------------------------
  // Setters
  // ---------------------------------------------------------------------------

  /** The legacy setters. */
  datatype LegacySetter =
    | HotWaterTankOperatingMode | HotWaterTankMaxTemperature
    | HeatCircuitTemperature | HeatCircuitNightTemperature | HeatCircuitOffsetTemperature
    | HeatCircuitOperatingMode

  function SetterSection(s: LegacySetter): LegacySection {
    if s.HotWaterTankOperatingMode? || s.HotWaterTankMaxTemperature? then LegacyHotWaterTank else LegacyHeatCircuit
  }

  /** The key each setter writes. */
  function SetterKey(s: LegacySetter): string {
    match s
    case HotWaterTankOperatingMode => "param.operatingMode"
    case HotWaterTankMaxTemperature => "param.normalSetTempMax.value"
    case HeatCircuitTemperature => "param.normalSetTemp"
    case HeatCircuitNightTemperature => "param.reducedSetTemp"
    case HeatCircuitOffsetTemperature => "param.offsetRoomTemp"
    case HeatCircuitOperatingMode => "param.operatingMode"
  }

  const SetAction: string := "?action=set"

  /** A legacy request: the optional endpoint and the payload. */
  datatype LegacyPost = LegacyPost(endpoint: Option<string>, payload: seq<LegacyEntry>)

  /** A legacy setter: `str(value)` to the `?action=set` endpoint. */
  function LegacySet(s: LegacySetter, value: int, position: Option<int>): LegacyPost {
    LegacyPost(Some(SetAction),
               LegacyPayload(PayloadType(SetterSection(s)), position, SetterKey(s), Some(IntToString(value))))
  }

  /** A legacy getter: no endpoint and no value. */
  function LegacyGet(section: LegacySection, key: string, position: Option<int>): LegacyPost {
    LegacyPost(None, LegacyPayload(PayloadType(section), position, key, None))
  }

  /** The legacy getters, section by section. */
  datatype LegacyGetter =
    | TankTemperature | TankOperatingMode | TankMinTemperature | TankMaxTemperature
    | PumpStatus | PumpCirculationPump | PumpInflowTemperature | PumpRefluxTemperature
    | PumpSourceInputTemperature | PumpSourceOutputTemperature
    | PumpCompressorInputTemperature | PumpCompressorOutputTemperature
    | PumpCompressor | PumpHighPressure | PumpLowPressure
    | CircuitTemperature | CircuitDayTemperature | CircuitDayTemperatureThreshold
    | CircuitNightTemperature | CircuitNightTemperatureThreshold | CircuitHolidayTemperature
    | CircuitOffsetTemperature | CircuitOperatingMode

  function GetterSection(g: LegacyGetter): LegacySection {
    if g.TankTemperature? || g.TankOperatingMode? || g.TankMinTemperature? || g.TankMaxTemperature? then
      LegacyHotWaterTank
    else if g.CircuitTemperature? || g.CircuitDayTemperature? || g.CircuitDayTemperatureThreshold?
            || g.CircuitNightTemperature? || g.CircuitNightTemperatureThreshold?
            || g.CircuitHolidayTemperature? || g.CircuitOffsetTemperature? || g.CircuitOperatingMode? then
      LegacyHeatCircuit
    else LegacyHeatPump
  }

  /** The key each getter reads. */
  function GetterKey(g: LegacyGetter): string {
    match g
    case TankTemperature => "topTemp.values.actValue"
    case TankOperatingMode => "param.operatingMode"
    case TankMinTemperature => "param.reducedSetTempMax.value"
    case TankMaxTemperature => "param.normalSetTempMax.value"
    case PumpStatus => "values.heatpumpState"
    case PumpCirculationPump => "CircPump.values.setValueScaled"
    case PumpInflowTemperature => "TempHeatFlow.values.actValue"
    case PumpRefluxTemperature => "TempHeatReflux.values.actValue"
    case PumpSourceInputTemperature => "TempSourceIn.values.actValue"
    case PumpSourceOutputTemperature => "TempSourceOut.values.actValue"
    case PumpCompressorInputTemperature => "TempCompressorIn.values.actValue"
    case PumpCompressorOutputTemperature => "TempCompressorOut.values.actValue"
    case PumpCompressor => "Compressor.values.setValueScaled"
    case PumpHighPressure => "HighPressure.values.actValue"
    case PumpLowPressure => "LowPressure.values.actValue"
    case CircuitTemperature => "values.setValue"
    case CircuitDayTemperature => "param.normalSetTemp"
    case CircuitDayTemperatureThreshold => "param.thresholdDayTemp.value"
    case CircuitNightTemperature => "param.reducedSetTemp"
    case CircuitNightTemperatureThreshold => "param.thresholdNightTemp.value"
    case CircuitHolidayTemperature => "param.holidaySetTemp"
    case CircuitOffsetTemperature => "param.offsetRoomTemp"
    case CircuitOperatingMode => "param.operatingMode"
  }

  /** A legacy getter's request. */
  function LegacyRead(g: LegacyGetter, position: Option<int>): LegacyPost {
    LegacyGet(GetterSection(g), GetterKey(g), position)
  }

  /** The getter that reads back what a setter writes. For the heating
      circuit's `set_temperature` this is `get_day_temperature`. */
  function ReadBack(s: LegacySetter): LegacyGetter {
    match s
    case HotWaterTankOperatingMode => TankOperatingMode
    case HotWaterTankMaxTemperature => TankMaxTemperature
    case HeatCircuitTemperature => CircuitDayTemperature
    case HeatCircuitNightTemperature => CircuitNightTemperature
    case HeatCircuitOffsetTemperature => CircuitOffsetTemperature
    case HeatCircuitOperatingMode => CircuitOperatingMode
  }

  /** The getter with the same name as the setter (`set_x` and `get_x`). */
  function Namesake(s: LegacySetter): LegacyGetter {
    match s
    case HotWaterTankOperatingMode => TankOperatingMode
    case HotWaterTankMaxTemperature => TankMaxTemperature
    case HeatCircuitTemperature => CircuitTemperature
    case HeatCircuitNightTemperature => CircuitNightTemperature
    case HeatCircuitOffsetTemperature => CircuitOffsetTemperature
    case HeatCircuitOperatingMode => CircuitOperatingMode
  }

  lemma ReadBackKey(s: LegacySetter)
    ensures GetterSection(ReadBack(s)) == SetterSection(s) && GetterKey(ReadBack(s)) == SetterKey(s)
  {
    match s
    case HotWaterTankOperatingMode =>
    case HotWaterTankMaxTemperature =>
    case HeatCircuitTemperature =>
    case HeatCircuitNightTemperature =>
    case HeatCircuitOffsetTemperature =>
    case HeatCircuitOperatingMode =>
  }

  lemma NamesakeKey(s: LegacySetter)
    ensures GetterSection(Namesake(s)) == SetterSection(s)
    ensures GetterKey(Namesake(s)) == SetterKey(s) <==> s != HeatCircuitTemperature
  {
    match s
    case HotWaterTankOperatingMode =>
    case HotWaterTankMaxTemperature =>
    case HeatCircuitTemperature =>
      assert |GetterKey(Namesake(s))| != |SetterKey(s)|;
    case HeatCircuitNightTemperature =>
    case HeatCircuitOffsetTemperature =>
    case HeatCircuitOperatingMode =>
  }

  /** A setter writes, to the set action, the variable its read-back getter
      reads, and the value it sends parses back to the integer given; the
      getter sends no value. */
  lemma LegacySetRoundTrip(s: LegacySetter, value: int, position: Option<int>)
    ensures LegacySet(s, value, position).endpoint == Some(SetAction)
    ensures LegacySet(s, value, position).payload[0].name == LegacyRead(ReadBack(s), position).payload[0].name
    ensures ParseInt(LegacySet(s, value, position).payload[0].value.value) == Some(value)
    ensures LegacyRead(ReadBack(s), position).payload[0].value.None?
  {
    ReadBackKey(s);
    IntRoundTrip(value);
  }

  /** Every setter but the heating circuit's `set_temperature` writes the
      variable its namesake getter reads; `set_temperature` writes the day
      temperature `param.normalSetTemp`, while `get_temperature` reads the
      effective set value `values.setValue`. */
  lemma NamesakeReadsBack(s: LegacySetter, value: int, position: Option<int>)
    ensures LegacySet(s, value, position).payload[0].name == LegacyRead(Namesake(s), position).payload[0].name
            <==> s != HeatCircuitTemperature
  {
    NamesakeKey(s);
    var sec := SetterSection(s);
    var written := LegacyPayload(PayloadType(sec), position, SetterKey(s), Some(IntToString(value)))[0].name;
    var read := LegacyPayload(PayloadType(sec), position, GetterKey(Namesake(s)), None)[0].name;
    assert written == LegacyPayload(PayloadType(sec), position, SetterKey(s), None)[0].name;
    if written == read {
      LegacyNameInjective(sec, position, SetterKey(s), sec, position, GetterKey(Namesake(s)));
    }
  }

  /** The current control a legacy setter writes. */
  function SetterControl(s: LegacySetter): Control {
    match s
    case HotWaterTankOperatingMode => HotWaterTank(HotWaterTankKey.OperatingMode)
    case HotWaterTankMaxTemperature => HotWaterTank(MaxTemperature)
    case HeatCircuitTemperature => HeatCircuit(DayTemperature)
    case HeatCircuitNightTemperature => HeatCircuit(NightTemperature)
    case HeatCircuitOffsetTemperature => HeatCircuit(OffsetTemperature)
    case HeatCircuitOperatingMode => HeatCircuit(HeatCircuitKey.OperatingMode)
  }

  /** Every legacy setter writes a variable the current client also
      declares writable, at the same name. */
  lemma LegacySettersWritable(s: LegacySetter, value: int, p: int)
    requires p != 0
    ensures GroupOf(SetterControl(s)) == SectionGroup(SetterSection(s))
    ensures Spec(SetterControl(s)).suffix == SetterKey(s)
    ensures IsWritable(SetterControl(s))
    ensures LegacySet(s, value, Some(p)).payload[0].name == DotPath(SetterControl(s), Some(p - 1))
  {
    SetterControlOf(s);
    LegacyAgreesWithDotPath(SetterSection(s), SetterControl(s), p, Some(IntToString(value)));
  }

  lemma SetterControlOf(s: LegacySetter)
    ensures GroupOf(SetterControl(s)) == SectionGroup(SetterSection(s))
    ensures Spec(SetterControl(s)).suffix == SetterKey(s)
    ensures IsWritable(SetterControl(s))
  {
    match s
    case HotWaterTankOperatingMode =>
    case HotWaterTankMaxTemperature =>
    case HeatCircuitTemperature =>
    case HeatCircuitNightTemperature =>
    case HeatCircuitOffsetTemperature =>
    case HeatCircuitOperatingMode =>
  }

  // ---------------------------------------------------------------------------
  // URLs
  // ---------------------------------------------------------------------------

  /** The legacy base URL: the device URL followed by the variables path. */
  function LegacyBaseUrl(host: string, ssl: bool): string {
    DeviceUrl(host, ssl) + ReadValuesEndpoint
  }

  /** `f"{self._base_url}{endpoint}"` as written: a missing endpoint is
      formatted as the text `None`. */
  function LegacyUrlAsWritten(base: string, endpoint: Option<string>): string {
    base + (if endpoint.Some? then endpoint.value else "None")
  }

  /** The URL evidently intended: the base URL alone when no endpoint is
      given. */
  function LegacyUrl(base: string, endpoint: Option<string>): string {
    base + endpoint.GetOr("")
  }

  /** As written, every legacy getter posts to the variables path with
      `None` appended, which is not the path the current client reads
      from. */
  lemma LegacyGetUrlAsWritten(host: string, ssl: bool, section: LegacySection, key: string, position: Option<int>)
    ensures LegacyUrlAsWritten(LegacyBaseUrl(host, ssl), LegacyGet(section, key, position).endpoint)
            == DeviceUrl(host, ssl) + "/var/readWriteVarsNone"
    ensures LegacyUrlAsWritten(LegacyBaseUrl(host, ssl), LegacyGet(section, key, position).endpoint)
            != DeviceUrl(host, ssl) + ReadValuesEndpoint
  {
    var u := DeviceUrl(host, ssl);
    assert (u + ReadValuesEndpoint) + "None" == u + "/var/readWriteVarsNone";
    assert |u + "/var/readWriteVarsNone"| != |u + ReadValuesEndpoint|;
  }

  /** With the missing endpoint read as empty, getters post to the read
      path and setters to the set path of the current client. */
  lemma LegacyUrlsAgree(host: string, ssl: bool, section: LegacySection, key: string, position: Option<int>,
                        s: LegacySetter, value: int)
    ensures LegacyUrl(LegacyBaseUrl(host, ssl), LegacyGet(section, key, position).endpoint)
            == DeviceUrl(host, ssl) + ReadValuesEndpoint
    ensures LegacyUrl(LegacyBaseUrl(host, ssl), LegacySet(s, value, position).endpoint)
            == DeviceUrl(host, ssl) + WriteValuesEndpoint
  {
    var u := DeviceUrl(host, ssl);
    assert (u + ReadValuesEndpoint) + "" == u + ReadValuesEndpoint;
    assert (u + ReadValuesEndpoint) + SetAction == u + WriteValuesEndpoint;
  }
}
