/** The per-section operations built on the read and write engines: the
    value lists of the `set_*` methods, the operating-mode lookup, the
    element a `get_*` method picks from a read, and `get_positions`. */
module Sections {
  import opened Wrappers
  import opened Text
  import opened Constants
  import opened Dicts
  import opened Paths
  import opened Responses
  import opened Reads
  import opened Writes

  // ---------------------------------------------------------------------------
  // Setters
  // ---------------------------------------------------------------------------

  /** `[v if position == p else None for p in range(1, position + 1)]`. */
  function SetterValues(v: Scalar, position: int): (r: seq<Option<Scalar>>)
    ensures |r| == (if position < 0 then 0 else position)
  {
    seq(if position < 0 then 0 else position, i requires 0 <= i => if position == i + 1 then Some(v) else None)
  }

  /** The temperature and mode setters of the three sections, by target. */
  datatype Setter =
    | HotWaterTankModeSetter
    | MinTemperatureSetter
    | MaxTemperatureSetter
    | DayTemperatureSetter
    | NightTemperatureSetter
    | HolidayTemperatureSetter
    | OffsetTemperatureSetter
    | HeatCircuitModeSetter

  /** The control each setter writes. */
  function SetterControl(s: Setter): Control {
    match s
    case HotWaterTankModeSetter => HotWaterTank(HotWaterTankKey.OperatingMode)
    case MinTemperatureSetter => HotWaterTank(MinTemperature)
    case MaxTemperatureSetter => HotWaterTank(MaxTemperature)
    case DayTemperatureSetter => HeatCircuit(DayTemperature)
    case NightTemperatureSetter => HeatCircuit(NightTemperature)
    case HolidayTemperatureSetter => HeatCircuit(HolidayTemperature)
    case OffsetTemperatureSetter => HeatCircuit(OffsetTemperature)
    case HeatCircuitModeSetter => HeatCircuit(HeatCircuitKey.OperatingMode)
  }

  /** What a setter sends for a value at a 1-based position. */
  function SetterPayload(s: Setter, v: Scalar, position: int): seq<WriteEntry> {
    WritePayload([(SetterControl(s), SetterValues(v, position))])
  }

  lemma {:induction false} NoPresentSlots(vals: seq<Option<Scalar>>, from: nat)
    requires forall i :: 0 <= i < |vals| ==> vals[i].None?
    ensures PresentSlots(vals, from) == []
    decreases |vals| - from
  {
    if from < |vals| {
      NoPresentSlots(vals, from + 1);
    }
  }

  /** Only the target slot of a setter's list is present. */
  lemma SetterSlots(v: Scalar, position: int)
    ensures position < 1 ==> PresentSlots(SetterValues(v, position), 0) == []
    ensures position >= 1 ==> PresentSlots(SetterValues(v, position), 0) == [(position - 1, v)]
  {
    var vals := SetterValues(v, position);
    if position < 1 {
      NoPresentSlots(vals, 0);
    } else {
      var init := vals[..position - 1];
      assert vals == init + [Some(v)];
      NoPresentSlots(init, 0);
      PresentSlotsSplit(init, 0, Some(v));
    }
  }

  /** A setter for position `p >= 1` sends exactly one entry: the target
      control at wire index `p - 1`, carrying the printed value; a
      position below one sends nothing. The holiday setter targets a
      read-only control and always sends nothing. */
  lemma SetterWritesOne(s: Setter, v: Scalar, position: int)
    ensures s != HolidayTemperatureSetter && position >= 1 ==>
              SetterPayload(s, v, position)
              == [WriteEntry(DotPath(SetterControl(s), Some(position - 1)), Show(v))]
    ensures position < 1 ==> SetterPayload(s, v, position) == []
    ensures s == HolidayTemperatureSetter ==> SetterPayload(s, v, position) == []
  {
    var c := SetterControl(s);
    WritePayloadConcat([], []);
    WritableExactly(c);
    SetterSlots(v, position);
  }

  /** The entry a setter writes names the same device variable that the
      getter for the same position reads. */
  lemma SetterMatchesGetter(s: Setter, v: Scalar, position: int)
    requires s != HolidayTemperatureSetter && position >= 1
    ensures var read := ReadPayload([SetterControl(s)], NormalizePositions(SingleArg(Some(position))), None, true);
            |read| == 1 && SetterPayload(s, v, position) == [WriteEntry(read[0].name, Show(v))]
  {
    var c := SetterControl(s);
    SetterWritesOne(s, v, position);
    var pos := NormalizePositions(SingleArg(Some(position)));
    ReadPayloadFollowsPlan([c], pos, None, true);
    PlanConcat([c], [], pos, PayloadWalk, None);
    assert [c] + [] == [c];
    PositionIndexOfList(c, [Some(position)]);
  }

  // ---------------------------------------------------------------------------
  // Operating modes
  // ---------------------------------------------------------------------------

  /** The mode argument of `set_operating_mode`: a code, passed through
      unchecked, or a member name in any letter case. */
  datatype ModeArg = ModeCode(code: int) | ModeName(name: string)

  /** `mode if isinstance(mode, int) else E[mode.upper()].value`, with the
      lookup failure reported as "Invalid operating mode!". */
  function ResolveMode(e: IntEnum, m: ModeArg): (r: Result<int, ApiError>)
    ensures m.ModeCode? ==> r == Ok(m.code)
    ensures r.Err? ==> r == Err(InvalidOperatingMode)
  {
    match m
    case ModeCode(n) => Ok(n)
    case ModeName(s) =>
      match EnumCode(e, Upper(s))
      case None => Err(InvalidOperatingMode)
      case Some(n) => Ok(n)
  }

  /** A name resolves to code `n` exactly when `n`'s member is the
      upper-cased name; names differing only in letter case resolve alike. */
  lemma ResolveModeName(e: IntEnum, name: string, other: string, n: int)
    ensures ResolveMode(e, ModeName(name)) == Ok(n) <==> EnumName(e, n) == Some(Upper(name))
    ensures Upper(name) == Upper(other) ==> ResolveMode(e, ModeName(name)) == ResolveMode(e, ModeName(other))
  {
    EnumNameCodeInverse(e, Upper(name), n);
  }

  /** Member names are written in capitals and underscores. */
  predicate IsConstantName(s: string) {
    forall i :: 0 <= i < |s| ==> IsUpperChar(s[i]) || s[i] == '_'
  }

  lemma MemberNamesConstant(e: IntEnum, k: int)
    requires 0 <= k < |Members(e)|
    ensures IsConstantName(Members(e)[k].0)
  {
  }

  lemma UpperOfLower(s: string)
    requires IsConstantName(s)
    ensures Upper(Lower(s)) == s
  {
    assert IsAscii(Lower(s));
    assert forall i :: 0 <= i < |s| ==> UpperChar(LowerChar(s[i])) == s[i];
  }

  /** A name whose upper case is not ASCII text matches no member. */
  lemma NonAsciiNameRejected(e: IntEnum, name: string)
    requires !IsAscii(Upper(name))
    ensures ResolveMode(e, ModeName(name)) == Err(InvalidOperatingMode)
  {
    if ResolveMode(e, ModeName(name)).Ok? {
      var n := ResolveMode(e, ModeName(name)).value;
      ResolveModeName(e, name, name, n);
      EnumCodes(e, n);
      MemberNamesConstant(e, n);
      assert false;
    }
  }

  /** `str.upper()` also maps some non-ASCII letters onto ASCII ones:
      "n\U{131}ght", with a dotless i, selects the heating circuit's night
      mode. */
  lemma DotlessNameResolves()
    ensures ResolveMode(HeatCircuitOperatingMode, ModeName("n\U{131}ght")) == Ok(3)
  {
    assert Upper("n\U{131}ght") == "NIGHT";
    EnumCodes(HeatCircuitOperatingMode, 3);
    ResolveModeName(HeatCircuitOperatingMode, "n\U{131}ght", "n\U{131}ght", 3);
  }

  /** A ligature upper-cases to two letters: "o\U{FB00}", with the ff
      ligature, selects the hot-water tank's off mode. */
  lemma LigatureNameResolves()
    ensures ResolveMode(HotWaterTankOperatingMode, ModeName("o\U{FB00}")) == Ok(0)
  {
    assert Upper("o\U{FB00}") == "OFF";
    EnumCodes(HotWaterTankOperatingMode, 0);
    ResolveModeName(HotWaterTankOperatingMode, "o\U{FB00}", "o\U{FB00}", 0);
  }

  /** The lower-case name a getter renders for a code is accepted back by
      the setter and resolves to the same code. */
  lemma ModeNameRoundTrip(e: IntEnum, code: int)
    requires 0 <= code < |Members(e)|
    ensures ResolveMode(e, ModeName(Lower(Members(e)[code].0))) == Ok(code)
  {
    var name := Members(e)[code].0;
    MemberNamesConstant(e, code);
    UpperOfLower(name);
    EnumCodes(e, code);
    ResolveModeName(e, Lower(name), Lower(name), code);
  }

  /** The two mode setters. */
  datatype ModeTarget = HotWaterTankMode | HeatCircuitMode

  function ModeEnum(t: ModeTarget): IntEnum {
    match t
    case HotWaterTankMode => HotWaterTankOperatingMode
    case HeatCircuitMode => HeatCircuitOperatingMode
  }

  function ModeSetter(t: ModeTarget): Setter {
    match t
    case HotWaterTankMode => HotWaterTankModeSetter
    case HeatCircuitMode => HeatCircuitModeSetter
  }

  /** `set_operating_mode`: resolve the mode, then write it at the
      position. An unknown name fails before anything is sent. */
  function SetOperatingMode(t: ModeTarget, m: ModeArg, position: int): (r: Result<seq<WriteEntry>, ApiError>)
    ensures r.Err? <==> ResolveMode(ModeEnum(t), m).Err?
  {
    var code :- ResolveMode(ModeEnum(t), m);
    Ok(SetterPayload(ModeSetter(t), IntValue(code), position))
  }

  /** A mode set by name at position `p >= 1` writes the member's code,
      printed in decimal, at wire index `p - 1` of the mode control; the
      device's reply to a read of that control renders back as the
      lower-case name. */
  lemma SetOperatingModeByName(t: ModeTarget, code: int, position: int)
    requires 0 <= code < |Members(ModeEnum(t))| && position >= 1
    ensures var c := SetterControl(ModeSetter(t));
            SetOperatingMode(t, ModeName(Lower(Members(ModeEnum(t))[code].0)), position)
            == Ok([WriteEntry(DotPath(c, Some(position - 1)), IntToString(code))])
    ensures var c := SetterControl(ModeSetter(t));
            forall entry: ResponseEntry :: entry.value == Some(IntToString(code)) ==>
              Convert(c, entry, true) == Ok(StrValue(Lower(Members(ModeEnum(t))[code].0)))
  {
    ModeNameWrites(t, code, position);
    ModeCodeRendersBack(t, code);
  }

  lemma ModeNameWrites(t: ModeTarget, code: int, position: int)
    requires 0 <= code < |Members(ModeEnum(t))| && position >= 1
    ensures var c := SetterControl(ModeSetter(t));
            SetOperatingMode(t, ModeName(Lower(Members(ModeEnum(t))[code].0)), position)
            == Ok([WriteEntry(DotPath(c, Some(position - 1)), IntToString(code))])
  {
    ModeNameRoundTrip(ModeEnum(t), code);
    SetterWritesOne(ModeSetter(t), IntValue(code), position);
  }

  lemma ModeCodeRendersBack(t: ModeTarget, code: int)
    requires 0 <= code < |Members(ModeEnum(t))|
    ensures var c := SetterControl(ModeSetter(t));
            forall entry: ResponseEntry :: entry.value == Some(IntToString(code)) ==>
              Convert(c, entry, true) == Ok(StrValue(Lower(Members(ModeEnum(t))[code].0)))
  {
    var e := ModeEnum(t);
    var c := SetterControl(ModeSetter(t));
    IntRoundTrip(code);
    forall entry: ResponseEntry | entry.value == Some(IntToString(code))
      ensures Convert(c, entry, true) == Ok(StrValue(Lower(Members(e)[code].0)))
    {
      ConvertEnumeration(c, e, entry, code);
    }
  }

  // ---------------------------------------------------------------------------
  // Getters
  // ---------------------------------------------------------------------------

  /** Python's `xs[i]`, negative indices counting from the end. */
  function PyIndex<T>(xs: seq<T>, i: int): (r: Result<T, ApiError>)
    ensures r.Ok? <==> -|xs| <= i < |xs|
    ensures 0 <= i < |xs| ==> r == Ok(xs[i])
  {
    if 0 <= i < |xs| then Ok(xs[i])
    else if -|xs| <= i < 0 then Ok(xs[|xs| + i])
    else Err(IndexOutOfRange)
  }

  /** `position - 1 if position else 0`, the index a getter looks up in
      the list it has read. */
  function GetterIndexAsWritten(position: Option<int>): int {
    if position.Some? && position.value != 0 then position.value - 1 else 0
  }

  /** A getter reads one control at one position and picks an element of
      the list under the control's key. */
  function GetterAt(c: Control, position: Option<int>, humanReadable: bool, reply: seq<ResponseEntry>,
                    index: int): Result<Value, ApiError>
  {
    var x := ReadValues([c], SingleArg(position), None, true, humanReadable, true, reply);
    var data :- x.result;
    var key := RealKey(c, true);
    match Get(data, key)
    case None => Err(MissingKey(key))
    case Some(vs) => PyIndex(vs, index)
  }

  /** The `get_*` methods as written: the list's element at
      `position - 1`. */
  function GetterAsWritten(c: Control, position: Option<int>, humanReadable: bool,
                           reply: seq<ResponseEntry>): Result<Value, ApiError>
  {
    GetterAt(c, position, humanReadable, reply, GetterIndexAsWritten(position))
  }

  /** The `get_*` methods with the lookup the read supports: a read at one
      position returns a one-element list, so its element 0. */
  function Getter(c: Control, position: Option<int>, humanReadable: bool,
                  reply: seq<ResponseEntry>): Result<Value, ApiError>
  {
    GetterAt(c, position, humanReadable, reply, 0)
  }

  /** A read of one control at one position walks a one-slot plan. */
  lemma SinglePlan(c: Control, position: Option<int>)
    ensures Plan([c], Indices([position]), PayloadWalk, None) == [PlanItem(c, PositionIndex(c, Indices([position]))[0])]
  {
    var pos := Indices([position]);
    PlanConcat([c], [], pos, PayloadWalk, None);
    assert [c] + [] == [c];
    assert |PositionIndex(c, pos)| == 1;
  }

  /** A read of one control at one position asks for one variable and
      succeeds exactly when the reply's first entry decodes. */
  lemma SingleRead(c: Control, position: Option<int>, humanReadable: bool, reply: seq<ResponseEntry>)
    ensures var x := ReadValues([c], SingleArg(position), None, true, humanReadable, true, reply);
            && |x.payload| == 1
            && x.payload[0] == ReadEntry(DotPath(c, PositionIndex(c, Indices([position]))[0]), "1")
            && (x.result.Ok? <==> |reply| >= 1 && DecodeEntry(c, reply[0], humanReadable).Ok?)
  {
    var pos := Indices([position]);
    var plan := Plan([c], pos, PayloadWalk, None);
    var step := Step(true, humanReadable);
    SinglePlan(c, position);
    ReadPayloadFollowsPlan([c], pos, None, true);
    DecodeSucceeds(step, plan, reply, []);
    DecodableTail(step, plan, reply);
    if |reply| >= 1 {
      StepOf(c, reply[0], true, humanReadable);
    }
  }

  /** On success the list under the control's key holds exactly the value
      decoded from the reply's first entry. */
  lemma SingleReadValue(c: Control, position: Option<int>, humanReadable: bool, reply: seq<ResponseEntry>)
    requires |reply| >= 1 && DecodeEntry(c, reply[0], humanReadable).Ok?
    ensures var x := ReadValues([c], SingleArg(position), None, true, humanReadable, true, reply);
            x.result.Ok?
            && Get(x.result.value, RealKey(c, true)) == Some([DecodeEntry(c, reply[0], humanReadable).value])
  {
    var pos := Indices([position]);
    var step := Step(true, humanReadable);
    var item := PlanItem(c, PositionIndex(c, pos)[0]);
    SinglePlan(c, position);
    StepOf(c, reply[0], true, humanReadable);
    DecodeSingle(step, item, reply);
  }

  /** The corrected getter returns the value decoded from the single reply
      entry, for every position. */
  lemma GetterReadsItsPosition(c: Control, position: Option<int>, humanReadable: bool, reply: seq<ResponseEntry>)
    requires |reply| >= 1 && DecodeEntry(c, reply[0], humanReadable).Ok?
    ensures Getter(c, position, humanReadable, reply) == DecodeEntry(c, reply[0], humanReadable)
  {
    SingleReadValue(c, position, humanReadable, reply);
  }

  /** For no position, position 0 or position 1 the getter as written
      agrees with the corrected one. */
  lemma GetterAgreesAtFirst(c: Control, position: Option<int>, humanReadable: bool, reply: seq<ResponseEntry>)
    requires position in {None, Some(0), Some(1)}
    ensures GetterAsWritten(c, position, humanReadable, reply) == Getter(c, position, humanReadable, reply)
  {
  }

  lemma TankReadingDecodes(entry: ResponseEntry)
    requires entry == ResponseEntry("x", Some("42.5"), NoAttributes)
    ensures DecodeEntry(HotWaterTank(HotWaterTankKey.Temperature), entry, true) == Ok(Value(FloatValue("42.5"), map[]))
  {
    FloatTextAccepts();
    assert Convert(HotWaterTank(HotWaterTankKey.Temperature), entry, true) == Ok(FloatValue("42.5"));
    assert CleanAttributes(entry) == Ok(map[]);
  }

  /** Reading the second hot-water tank's temperature: the read asks for
      index 1 and the device answers with one entry, yet the getter as
      written looks up element 1 of the one-element list and fails. */
  lemma GetterSecondPosition()
    ensures GetterAsWritten(HotWaterTank(HotWaterTankKey.Temperature), Some(2), true,
                            [ResponseEntry("x", Some("42.5"), NoAttributes)]) == Err(IndexOutOfRange)
    ensures Getter(HotWaterTank(HotWaterTankKey.Temperature), Some(2), true,
                   [ResponseEntry("x", Some("42.5"), NoAttributes)]) == Ok(Value(FloatValue("42.5"), map[]))
  {
    var c := HotWaterTank(HotWaterTankKey.Temperature);
    var reply := [ResponseEntry("x", Some("42.5"), NoAttributes)];
    TankReadingDecodes(reply[0]);
    SingleReadValue(c, Some(2), true, reply);
  }

  // ---------------------------------------------------------------------------
  // Positions
  // ---------------------------------------------------------------------------

  /** The three counts `get_positions` asks for, in its order. */
  const PositionsRequest: seq<Control> :=
    [Options(HeatPumpNumbers), Options(HeatCircuitNumbers), Options(HotWaterTankNumbers)]

  /** `OptionsSection.read_values`: un-indexed, restricted to Options,
      keys without the group stem. */
  function OptionsRead(request: seq<Control>, extra: bool, reply: seq<ResponseEntry>): ReadExchange {
    ReadValues(request, SingleArg(None), Some([OptionsGroup]), false, true, extra, reply)
  }

  /** The keyword arguments `get_positions` builds: each key without
      `_NUMBERS`, lower-cased, mapped to the integer first value. */
  function PositionFields(data: Decoded, acc: Dict<int>): Result<Dict<int>, ApiError>
    decreases |data|
  {
    if |data| == 0 then Ok(acc)
    else
      var (k, vs) := data[0];
      if |vs| == 0 then Err(IndexOutOfRange)
      else match vs[0].value
        case IntValue(n) => PositionFields(data[1..], Put(acc, Lower(RemoveAll(k, NumbersSuffix)), n))
        case _ => Err(BadPositionFields)
  }

  /** The three `Position` fields. */
  predicate IsPositionField(k: string) {
    k == PositionKey(HeatPumpGroup) || k == PositionKey(HeatCircuitGroup) || k == PositionKey(HotWaterTankGroup)
  }

  /** `Position(**fields)`: every field given and no other. */
  function MakePosition(fields: Dict<int>): (r: Result<Position, ApiError>)
    ensures r.Ok? <==> (forall i :: 0 <= i < |fields| ==> IsPositionField(fields[i].0))
                       && HasKey(fields, PositionKey(HeatPumpGroup))
                       && HasKey(fields, PositionKey(HeatCircuitGroup))
                       && HasKey(fields, PositionKey(HotWaterTankGroup))
    ensures r.Ok? ==> forall g :: g in {HeatPumpGroup, HeatCircuitGroup, HotWaterTankGroup} ==>
                        Some(GroupCount(r.value, g).value) == Get(fields, PositionKey(g))
  {
    var hp, hc, hwt := Get(fields, PositionKey(HeatPumpGroup)), Get(fields, PositionKey(HeatCircuitGroup)),
                       Get(fields, PositionKey(HotWaterTankGroup));
    if (forall i :: 0 <= i < |fields| ==> IsPositionField(fields[i].0)) && hp.Some? && hc.Some? && hwt.Some? then
      Ok(Position(hp.value, hc.value, hwt.value))
    else Err(BadPositionFields)
  }

  /** `get_positions`. */
  function GetPositions(reply: seq<ResponseEntry>): Result<Position, ApiError> {
    var data :- OptionsRead(PositionsRequest, true, reply).result;
    var fields :- PositionFields(data, []);
    MakePosition(fields)
  }

  /** The slots of the counts read: each count once, un-indexed. */
  const PositionsPlan: seq<PlanItem> :=
    [PlanItem(Options(HeatPumpNumbers), None), PlanItem(Options(HeatCircuitNumbers), None),
     PlanItem(Options(HotWaterTankNumbers), None)]

  lemma PositionsPlanOf()
    ensures Plan(PositionsRequest, Indices([None]), PayloadWalk, Some([OptionsGroup])) == PositionsPlan
  {
    var pos := Indices([None]);
    var r := PositionsRequest;
    assert r == [r[0]] + ([r[1]] + [r[2]]);
    PlanConcat([r[0]], [r[1]] + [r[2]], pos, PayloadWalk, Some([OptionsGroup]));
    PlanConcat([r[1]], [r[2]], pos, PayloadWalk, Some([OptionsGroup]));
  }

  /** Three slots with three different keys decode to three one-element
      lists, in slot order. */
  lemma DecodeThree(step: EntryStep, plan: seq<PlanItem>, reply: seq<ResponseEntry>)
    requires |plan| == 3 && |reply| >= 3
    requires step(plan[0].control, reply[0]).Ok?
    requires step(plan[1].control, reply[1]).Ok?
    requires step(plan[2].control, reply[2]).Ok?
    requires step(plan[0].control, reply[0]).value.0 != step(plan[1].control, reply[1]).value.0
    requires step(plan[0].control, reply[0]).value.0 != step(plan[2].control, reply[2]).value.0
    requires step(plan[1].control, reply[1]).value.0 != step(plan[2].control, reply[2]).value.0
    ensures DecodeInto(step, plan, reply, [])
            == Ok([(step(plan[0].control, reply[0]).value.0, [step(plan[0].control, reply[0]).value.1]),
                   (step(plan[1].control, reply[1]).value.0, [step(plan[1].control, reply[1]).value.1]),
                   (step(plan[2].control, reply[2]).value.0, [step(plan[2].control, reply[2]).value.1])])
  {
    var kv0, kv1, kv2 := step(plan[0].control, reply[0]).value, step(plan[1].control, reply[1]).value,
                         step(plan[2].control, reply[2]).value;
    var p1, r1 := plan[1..], reply[1..];
    assert p1[0] == plan[1] && r1[0] == reply[1];
    var p2, r2 := p1[1..], r1[1..];
    assert p2[0] == plan[2] && r2[0] == reply[2];
    var a0: Decoded := [];
    var a1 := a0 + [(kv0.0, [kv0.1])];
    assert AppendTo(a0, kv0.0, kv0.1) == a1;
    assert !HasKey(a1, kv1.0);
    var a2 := a1 + [(kv1.0, [kv1.1])];
    assert AppendTo(a1, kv1.0, kv1.1) == a2;
    assert IndexOf(a2[1..], kv2.0).None?;
    assert !HasKey(a2, kv2.0);
    var a3 := a2 + [(kv2.0, [kv2.1])];
    assert AppendTo(a2, kv2.0, kv2.1) == a3;
    assert |p2[1..]| == 0;
    assert DecodeInto(step, p2, r2, a2) == Ok(a3);
    assert DecodeInto(step, p1, r1, a1) == Ok(a3);
    assert DecodeInto(step, plan, reply, a0) == Ok(a3);
    assert a3 == [(kv0.0, [kv0.1]), (kv1.0, [kv1.1]), (kv2.0, [kv2.1])];
  }

  /** A reply entry holding the decimal text of `n` and attributes that are
      missing or an object. */
  predicate IntEntry(entry: ResponseEntry, n: int) {
    entry.value.Some? && ParseInt(entry.value.value) == Some(n) && !entry.attributes.NullAttributes?
  }

  /** A count converts to the integer the device printed. */
  lemma CountConverts(k: OptionsKey, entry: ResponseEntry, n: int)
    requires IntEntry(entry, n)
    ensures Step(false, true)(Options(k), entry)
            == Ok((MemberName(Options(k)), Value(IntValue(n), CleanAttributes(entry).value)))
  {
    StepOf(Options(k), entry, false, true);
  }

  /** The counts decode to one single-value list per count, under the
      counts' member names. */
  lemma PositionsDecoded(reply: seq<ResponseEntry>, hp: int, hc: int, hwt: int)
    requires |reply| >= 3
    requires IntEntry(reply[0], hp) && IntEntry(reply[1], hc) && IntEntry(reply[2], hwt)
    ensures Decode(PositionsPlan, reply, false, true)
            == Ok([(MemberName(Options(HeatPumpNumbers)), [Value(IntValue(hp), CleanAttributes(reply[0]).value)]),
                   (MemberName(Options(HeatCircuitNumbers)), [Value(IntValue(hc), CleanAttributes(reply[1]).value)]),
                   (MemberName(Options(HotWaterTankNumbers)), [Value(IntValue(hwt), CleanAttributes(reply[2]).value)])])
  {
    var step, plan := Step(false, true), PositionsPlan;
    var x, y, z := Options(HeatPumpNumbers), Options(HeatCircuitNumbers), Options(HotWaterTankNumbers);
    assert plan[0].control == x && plan[1].control == y && plan[2].control == z;
    CountConverts(HeatPumpNumbers, reply[0], hp);
    CountConverts(HeatCircuitNumbers, reply[1], hc);
    CountConverts(HotWaterTankNumbers, reply[2], hwt);
    SuffixesDistinct(x, y);
    SuffixesDistinct(x, z);
    SuffixesDistinct(y, z);
    assert MemberName(x) != MemberName(y) && MemberName(x) != MemberName(z) && MemberName(y) != MemberName(z);
    DecodeThree(step, plan, reply);
  }

  /** One count entry adds its field. */
  lemma PositionFieldsStep(data: Decoded, n: int, field: string, acc: Dict<int>)
    requires |data| > 0 && |data[0].1| > 0 && data[0].1[0].value == IntValue(n)
    requires Lower(RemoveAll(data[0].0, NumbersSuffix)) == field
    ensures PositionFields(data, acc) == PositionFields(data[1..], Put(acc, field, n))
  {
  }

  /** Three different fields set in turn on an empty dict. */
  lemma PutThree(kx: string, ky: string, kz: string, hp: int, hc: int, hwt: int)
    requires kx != ky && kx != kz && ky != kz
    ensures Put(Put(Put([], kx, hp), ky, hc), kz, hwt) == [(kx, hp), (ky, hc), (kz, hwt)]
  {
    var f0: Dict<int> := [];
    var f1 := f0 + [(kx, hp)];
    var f2 := f1 + [(ky, hc)];
    assert IndexOf(f0, kx).None? && IndexOf(f0, ky).None? && IndexOf(f0, kz).None?;
    AppendedIndex(f0, kx, hp);
    AppendedIndex(f1, ky, hc);
    assert Put(f0, kx, hp) == f1;
    assert Put(f1, ky, hc) == f2;
    assert f2 + [(kz, hwt)] == [(kx, hp), (ky, hc), (kz, hwt)];
  }

  /** Three count entries whose keys map to three different fields give
      those fields, in order. */
  lemma FieldsOfThree(x: string, y: string, z: string, kx: string, ky: string, kz: string,
                      hp: int, hc: int, hwt: int, a: map<string, Json>, b: map<string, Json>, c: map<string, Json>)
    requires Lower(RemoveAll(x, NumbersSuffix)) == kx
    requires Lower(RemoveAll(y, NumbersSuffix)) == ky
    requires Lower(RemoveAll(z, NumbersSuffix)) == kz
    requires kx != ky && kx != kz && ky != kz
    ensures PositionFields([(x, [Value(IntValue(hp), a)]), (y, [Value(IntValue(hc), b)]), (z, [Value(IntValue(hwt), c)])], [])
            == Ok([(kx, hp), (ky, hc), (kz, hwt)])
  {
    var d0: Decoded := [(x, [Value(IntValue(hp), a)]), (y, [Value(IntValue(hc), b)]), (z, [Value(IntValue(hwt), c)])];
    var d1, d2 := d0[1..], d0[2..];
    assert d1[0] == d0[1] && d1[1..] == d2 && d2[0] == d0[2] && |d2[1..]| == 0;
    var f0: Dict<int> := [];
    var f1 := Put(f0, kx, hp);
    var f2 := Put(f1, ky, hc);
    var f3 := Put(f2, kz, hwt);
    PositionFieldsStep(d0, hp, kx, f0);
    PositionFieldsStep(d1, hc, ky, f1);
    PositionFieldsStep(d2, hwt, kz, f2);
    assert PositionFields(d2[1..], f3) == Ok(f3);
    PutThree(kx, ky, kz, hp, hc, hwt);
  }

  lemma PositionKeysDistinct()
    ensures PositionKey(HeatPumpGroup) != PositionKey(HeatCircuitGroup)
    ensures PositionKey(HeatPumpGroup) != PositionKey(HotWaterTankGroup)
    ensures PositionKey(HeatCircuitGroup) != PositionKey(HotWaterTankGroup)
  {
    assert |PositionKey(HeatPumpGroup)| == 9;
    assert |PositionKey(HeatCircuitGroup)| == 12;
    assert |PositionKey(HotWaterTankGroup)| == 14;
  }

  /** The count keys become exactly the three `Position` fields. */
  lemma PositionsFields(hp: int, hc: int, hwt: int, a: map<string, Json>, b: map<string, Json>, c: map<string, Json>)
    ensures PositionFields([(MemberName(Options(HeatPumpNumbers)), [Value(IntValue(hp), a)]),
                            (MemberName(Options(HeatCircuitNumbers)), [Value(IntValue(hc), b)]),
                            (MemberName(Options(HotWaterTankNumbers)), [Value(IntValue(hwt), c)])], [])
            == Ok([(PositionKey(HeatPumpGroup), hp), (PositionKey(HeatCircuitGroup), hc),
                   (PositionKey(HotWaterTankGroup), hwt)])
  {
    OptionsKeyField(HeatPumpNumbers);
    OptionsKeyField(HeatCircuitNumbers);
    OptionsKeyField(HotWaterTankNumbers);
    PositionKeysDistinct();
    FieldsOfThree(MemberName(Options(HeatPumpNumbers)), MemberName(Options(HeatCircuitNumbers)),
                  MemberName(Options(HotWaterTankNumbers)),
                  PositionKey(HeatPumpGroup), PositionKey(HeatCircuitGroup), PositionKey(HotWaterTankGroup),
                  hp, hc, hwt, a, b, c);
  }

  /** The three fields make the `Position` holding them. */
  lemma PositionOfFields(hp: int, hc: int, hwt: int)
    ensures MakePosition([(PositionKey(HeatPumpGroup), hp), (PositionKey(HeatCircuitGroup), hc),
                          (PositionKey(HotWaterTankGroup), hwt)]) == Ok(Position(hp, hc, hwt))
  {
    var kx, ky, kz := PositionKey(HeatPumpGroup), PositionKey(HeatCircuitGroup), PositionKey(HotWaterTankGroup);
    PositionKeysDistinct();
    var f: Dict<int> := [(kx, hp), (ky, hc), (kz, hwt)];
    assert IndexOf(f, kx) == Some(0);
    assert IndexOf(f, ky) == Some(1);
    assert IndexOf(f[2..], kz) == Some(0);
    assert IndexOf(f[1..], kz) == Some(1);
    assert IndexOf(f, kz) == Some(2);
  }

  /** `get_positions` asks for the three counts, each once and un-indexed,
      with attributes. */
  lemma PositionsPayload(reply: seq<ResponseEntry>)
    ensures OptionsRead(PositionsRequest, true, reply).payload
            == [ReadEntry(DotPath(Options(HeatPumpNumbers), None), "1"),
                ReadEntry(DotPath(Options(HeatCircuitNumbers), None), "1"),
                ReadEntry(DotPath(Options(HotWaterTankNumbers), None), "1")]
  {
    PositionsPlanOf();
    ReadPayloadFollowsPlan(PositionsRequest, Indices([None]), Some([OptionsGroup]), true);
    var e := EntriesOf(PositionsPlan, true);
    assert e == [e[0], e[1], e[2]];
  }

  /** `get_positions` reads the three counts and returns them as a
      `Position`: whatever integers the device prints for the heat-pump,
      heating-circuit and hot-water-tank counts come back in those fields. */
  lemma GetPositionsRoundTrip(reply: seq<ResponseEntry>, hp: int, hc: int, hwt: int)
    requires |reply| >= 3
    requires IntEntry(reply[0], hp) && IntEntry(reply[1], hc) && IntEntry(reply[2], hwt)
    ensures GetPositions(reply) == Ok(Position(hp, hc, hwt))
  {
    PositionsPlanOf();
    assert OptionsRead(PositionsRequest, true, reply).result == Decode(PositionsPlan, reply, false, true);
    PositionsDecoded(reply, hp, hc, hwt);
    PositionsFields(hp, hc, hwt, CleanAttributes(reply[0]).value, CleanAttributes(reply[1]).value,
                    CleanAttributes(reply[2]).value);
    PositionOfFields(hp, hc, hwt);
  }
}
