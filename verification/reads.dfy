/** The read side of `BaseSection`: the (control, index) plan a read walks,
    the payload built from it, the per-entry conversion and attribute
    cleaning, and the decoder that consumes the reply in lock step with the
    plan. */
module Reads {
  import opened Wrappers
  import opened Text
  import opened Constants
  import opened Dicts
  import opened Paths
  import opened Responses

  // ---------------------------------------------------------------------------
  // The plan
  // ---------------------------------------------------------------------------

  /** One request slot: a control at a wire index. */
  datatype PlanItem = PlanItem(control: Control, index: Option<int>)

  /** The two loops over the request: the payload builder and the decoder.
      They test the type filter differently. */
  datatype Walk = PayloadWalk | DecoderWalk

  /** The type filter. The payload builder admits a control when the
      filter is absent or lists its group; the decoder also admits every
      control when the filter is an empty list. */
  predicate Admits(walk: Walk, allowed: Option<seq<Group>>, c: Control) {
    var listed := allowed.Some? && |allowed.value| > 0 && GroupOf(c) in allowed.value;
    match walk
    case PayloadWalk => listed || allowed.None?
    case DecoderWalk => listed || allowed.None? || |allowed.value| == 0
  }

  /** The two filters agree except on an empty list, which the payload
      builder reads as "nothing" and the decoder as "everything". */
  lemma AdmitsAgree(allowed: Option<seq<Group>>, c: Control)
    ensures allowed != Some([]) ==> (Admits(PayloadWalk, allowed, c) <==> Admits(DecoderWalk, allowed, c))
    ensures allowed == Some([]) ==> !Admits(PayloadWalk, allowed, c) && Admits(DecoderWalk, allowed, c)
  {
  }

  /** The slots one control contributes: one per wire index, in order. */
  function ControlPlan(c: Control, pos: Positions, walk: Walk, allowed: Option<seq<Group>>): (r: seq<PlanItem>)
    ensures !Admits(walk, allowed, c) ==> r == []
    ensures Admits(walk, allowed, c) ==> |r| == |PositionIndex(c, pos)|
    ensures Admits(walk, allowed, c) ==>
              forall k :: 0 <= k < |r| ==> r[k] == PlanItem(c, PositionIndex(c, pos)[k])
  {
    var idx := PositionIndex(c, pos);
    if Admits(walk, allowed, c) then seq(|idx|, k requires 0 <= k < |idx| => PlanItem(c, idx[k]))
    else []
  }

  /** The nested `for control in request: for idx in ...` loop. */
  function Plan(request: seq<Control>, pos: Positions, walk: Walk, allowed: Option<seq<Group>>): seq<PlanItem>
    decreases |request|
  {
    if |request| == 0 then []
    else ControlPlan(request[0], pos, walk, allowed) + Plan(request[1..], pos, walk, allowed)
  }

  /** The plan is control-major: the plan of a concatenated request is the
      concatenation of the plans, and one control's slots are its wire
      indices in order. */
  lemma {:induction false} PlanConcat(a: seq<Control>, b: seq<Control>, pos: Positions, walk: Walk,
                                      allowed: Option<seq<Group>>)
    ensures Plan(a + b, pos, walk, allowed) == Plan(a, pos, walk, allowed) + Plan(b, pos, walk, allowed)
    ensures forall c :: Plan([c], pos, walk, allowed) == ControlPlan(c, pos, walk, allowed)
    decreases |a|
  {
    if |a| > 0 {
      assert (a + b)[1..] == a[1..] + b;
      PlanConcat(a[1..], b, pos, walk, allowed);
      AppendAssociates(ControlPlan(a[0], pos, walk, allowed), Plan(a[1..], pos, walk, allowed),
                       Plan(b, pos, walk, allowed));
    } else {
      assert a + b == b;
    }
    PlanSingle(pos, walk, allowed);
  }

  lemma PlanSingle(pos: Positions, walk: Walk, allowed: Option<seq<Group>>)
    ensures forall c :: Plan([c], pos, walk, allowed) == ControlPlan(c, pos, walk, allowed)
  {
    forall c ensures Plan([c], pos, walk, allowed) == ControlPlan(c, pos, walk, allowed) {
      assert [c][1..] == [];
    }
  }

  /** Both loops walk the same plan unless the filter is an empty list;
      then the payload plan is empty while the decoder walks every control. */
  lemma {:induction false} PlansAgree(request: seq<Control>, pos: Positions, allowed: Option<seq<Group>>)
    ensures allowed != Some([]) ==> Plan(request, pos, DecoderWalk, allowed) == Plan(request, pos, PayloadWalk, allowed)
    ensures allowed == Some([]) ==> Plan(request, pos, PayloadWalk, allowed) == []
    ensures allowed == Some([]) ==> Plan(request, pos, DecoderWalk, allowed) == Plan(request, pos, PayloadWalk, None)
    decreases |request|
  {
    if |request| > 0 {
      AdmitsAgree(allowed, request[0]);
      PlansAgree(request[1..], pos, allowed);
    }
  }

  // ---------------------------------------------------------------------------
  // The read payload
  // ---------------------------------------------------------------------------

  /** One `ReadPayload` entry. */
  datatype ReadEntry = ReadEntry(name: string, attr: string)

  /** `str(int(extra_attributes is True))`. */
  function AttrFlag(extra: bool): (r: string)
    ensures r == "1" <==> extra
    ensures r == "0" <==> !extra
  {
    if extra then "1" else "0"
  }

  function ReadEntries(c: Control, idx: seq<Option<int>>, extra: bool): seq<ReadEntry> {
    seq(|idx|, k requires 0 <= k < |idx| => ReadEntry(DotPath(c, idx[k]), AttrFlag(extra)))
  }

  /** `_generate_read_payload`. */
  function ReadPayload(request: seq<Control>, pos: Positions, allowed: Option<seq<Group>>, extra: bool): seq<ReadEntry>
    decreases |request|
  {
    if |request| == 0 then []
    else
      var c := request[0];
      (if Admits(PayloadWalk, allowed, c) then ReadEntries(c, PositionIndex(c, pos), extra) else [])
      + ReadPayload(request[1..], pos, allowed, extra)
  }

  /** The entries naming the slots of a plan, one per slot. */
  function EntriesOf(plan: seq<PlanItem>, extra: bool): (r: seq<ReadEntry>)
    ensures |r| == |plan|
  {
    seq(|plan|, k requires 0 <= k < |plan| => ReadEntry(DotPath(plan[k].control, plan[k].index), AttrFlag(extra)))
  }

  lemma EntriesOfConcat(a: seq<PlanItem>, b: seq<PlanItem>, extra: bool)
    ensures EntriesOf(a + b, extra) == EntriesOf(a, extra) + EntriesOf(b, extra)
  {
    var l, r := EntriesOf(a + b, extra), EntriesOf(a, extra) + EntriesOf(b, extra);
    forall k | 0 <= k < |l| ensures l[k] == r[k] {
      if k < |a| {
        assert (a + b)[k] == a[k];
      } else {
        assert (a + b)[k] == b[k - |a|];
      }
    }
  }

  lemma HeadEntries(c: Control, pos: Positions, allowed: Option<seq<Group>>, extra: bool)
    ensures (if Admits(PayloadWalk, allowed, c) then ReadEntries(c, PositionIndex(c, pos), extra) else [])
            == EntriesOf(ControlPlan(c, pos, PayloadWalk, allowed), extra)
  {
  }

  /** The payload names the slots of the payload plan in order: entry k
      is the dot-path of slot k, so the payload has one entry per slot,
      control-major and index-minor, each asking for attributes exactly
      when `extra` is set. */
  lemma {:induction false} ReadPayloadFollowsPlan(request: seq<Control>, pos: Positions,
                                                  allowed: Option<seq<Group>>, extra: bool)
    ensures ReadPayload(request, pos, allowed, extra) == EntriesOf(Plan(request, pos, PayloadWalk, allowed), extra)
    decreases |request|
  {
    if |request| > 0 {
      ReadPayloadFollowsPlan(request[1..], pos, allowed, extra);
      HeadEntries(request[0], pos, allowed, extra);
      EntriesOfConcat(ControlPlan(request[0], pos, PayloadWalk, allowed),
                      Plan(request[1..], pos, PayloadWalk, allowed), extra);
    }
  }

  // ---------------------------------------------------------------------------
  // Conversion and attribute cleaning
  // ---------------------------------------------------------------------------

  /** How many entries a request asks for: over the controls the filter
      admits, the number of wire indices each is read at. */
  function PayloadSize(request: seq<Control>, pos: Positions, allowed: Option<seq<Group>>): nat
    decreases |request|
  {
    if |request| == 0 then 0
    else
      (if Admits(PayloadWalk, allowed, request[0]) then |PositionIndex(request[0], pos)| else 0)
      + PayloadSize(request[1..], pos, allowed)
  }

  /** The payload holds one entry per (admitted control, wire index). */
  lemma {:induction false} ReadPayloadLength(request: seq<Control>, pos: Positions, allowed: Option<seq<Group>>,
                                             extra: bool)
    ensures |ReadPayload(request, pos, allowed, extra)| == PayloadSize(request, pos, allowed)
    decreases |request|
  {
    if |request| > 0 {
      ReadPayloadLength(request[1..], pos, allowed, extra);
    }
  }


  /** `_convert_value`: `response[0]["value"]`, the control's type applied
      to it, then, when rendering is on and the control has an enumeration,
      the lower-case name of the member with that code. Only integer
      controls declare an enumeration (`Constants.HumanReadableControls`). */
  function Convert(c: Control, entry: ResponseEntry, humanReadable: bool): (r: Result<Scalar, ApiError>)
    ensures entry.value.None? ==> r == Err(MissingValue(entry))
    ensures entry.value.Some? && Spec(c).kind == FloatKind ==>
              (r.Ok? <==> IsFloatText(entry.value.value))
    ensures entry.value.Some? && Spec(c).kind == StrKind ==> r.Ok?
    ensures entry.value.Some? && Spec(c).kind == IntKind && ParseInt(entry.value.value).None? ==>
              r == Err(NotAnInteger(entry))
    ensures r.Err? ==> r.error in {MissingValue(entry), NotAFloat(entry), NotAnInteger(entry), NotHumanReadable(entry)}
    ensures r.Ok? && r.value.StrValue? && Spec(c).kind == IntKind ==>
              humanReadable && Spec(c).humanReadable.Some?
  {
    match entry.value
    case None => Err(MissingValue(entry))
    case Some(text) =>
      match Spec(c).kind
      case FloatKind => if IsFloatText(text) then Ok(FloatValue(text)) else Err(NotAFloat(entry))
      case StrKind => Ok(StrValue(text))
      case IntKind =>
        match ParseInt(text)
        case None => Err(NotAnInteger(entry))
        case Some(n) =>
          if humanReadable && Spec(c).humanReadable.Some? then
            match EnumName(Spec(c).humanReadable.value, n)
            case None => Err(NotHumanReadable(entry))
            case Some(name) => Ok(StrValue(Lower(name)))
          else Ok(IntValue(n))
  }

  /** For a control with an enumeration and an integer reply: with
      rendering on, a known code becomes its member's lower-case name and an
      unknown code fails naming the entry; with rendering off the code
      itself comes back. */
  lemma ConvertEnumeration(c: Control, e: IntEnum, entry: ResponseEntry, n: int)
    requires Spec(c).humanReadable == Some(e)
    requires entry.value.Some? && ParseInt(entry.value.value) == Some(n)
    ensures 0 <= n < |Members(e)| ==> Convert(c, entry, true) == Ok(StrValue(Lower(Members(e)[n].0)))
    ensures !(0 <= n < |Members(e)|) ==> Convert(c, entry, true) == Err(NotHumanReadable(entry))
    ensures Convert(c, entry, false) == Ok(IntValue(n))
  {
    HumanReadableControls(c);
    EnumCodes(e, n);
  }

  /** A float control reads every integer text the device may send, and
      keeps it as the value's text. */
  lemma ConvertIntegerText(c: Control, entry: ResponseEntry, humanReadable: bool)
    requires Spec(c).kind == FloatKind
    requires entry.value.Some? && ParseInt(entry.value.value).Some?
    ensures Convert(c, entry, humanReadable) == Ok(FloatValue(entry.value.value))
  {
    IntTextIsFloatText(entry.value.value);
  }

  const DroppedAttributes: seq<string> := ["longText", "formatId", "dynLowerLimit", "dynUpperLimit"]

  /** Delete each listed key whose value is truthy, one key at a time. */
  function DropTruthy(m: map<string, Json>, keys: seq<string>): (r: map<string, Json>)
    ensures forall k :: k in r <==> k in m && !(k in keys && Truthy(m[k]))
    ensures forall k :: k in r ==> r[k] == m[k]
    decreases |keys|
  {
    if |keys| == 0 then m
    else
      var m' := if keys[0] in m && Truthy(m[keys[0]]) then m - {keys[0]} else m;
      DropTruthy(m', keys[1..])
  }

  /** `response[0].get("attributes", {})`: the entry's attribute object,
      or an empty one when it has none. A `null` comes back as `None`, on
      which the first `.get` of `_clean_attributes` raises. */
  function AttributesOf(entry: ResponseEntry): Result<map<string, Json>, ApiError> {
    match entry.attributes
    case NoAttributes => Ok(map[])
    case NullAttributes => Err(AttributesNotObject(entry))
    case AttributeObject(m) => Ok(m)
  }

  /** `_clean_attributes`. */
  function CleanAttributes(entry: ResponseEntry): Result<map<string, Json>, ApiError> {
    var m :- AttributesOf(entry);
    Ok(DropTruthy(m, DroppedAttributes))
  }

  /** Cleaning fails exactly on `null` attributes. Otherwise it removes
      exactly the four display attributes, and only when their value is
      truthy; every other key keeps its value, and a missing attribute
      object cleans to an empty one. */
  lemma CleanAttributesExactly(entry: ResponseEntry, k: string)
    ensures CleanAttributes(entry).Err? <==> entry.attributes.NullAttributes?
    ensures entry.attributes.NoAttributes? ==> CleanAttributes(entry) == Ok(map[])
    ensures entry.attributes.AttributeObject? ==>
              var m, r := entry.attributes.fields, CleanAttributes(entry).value;
              && (k in r <==> k in m && !(k in {"longText", "formatId", "dynLowerLimit", "dynUpperLimit"}
                                          && Truthy(m[k])))
              && (k in r ==> r[k] == m[k])
  {
    assert k in DroppedAttributes <==> k in {"longText", "formatId", "dynLowerLimit", "dynUpperLimit"};
  }

  // ---------------------------------------------------------------------------
  // Response keys and the decoder
  // ---------------------------------------------------------------------------

  /** `_get_real_key`: the member name, behind the group's upper snake-case
      stem and `_` when `keyPrefix` is set. */
  function RealKey(c: Control, keyPrefix: bool): string {
    if keyPrefix then GroupStem(GroupOf(c)) + "_" + MemberName(c) else MemberName(c)
  }

  /** The stem `_get_real_key` prepends is the group's `SystemPrefix`, and
      the prefixed keys of distinct controls are distinct. */
  lemma RealKeyPrefix(c: Control, d: Control)
    ensures RealKey(c, true) == SystemPrefix(GroupOf(c)) + MemberName(c)
    ensures RealKey(c, false) == MemberName(c)
    ensures RealKey(c, true) == RealKey(d, true) ==> c == d
  {
    var g, h := GroupOf(c), GroupOf(d);
    SystemPrefixIsStem(g);
    SystemPrefixIsStem(h);
    assert RealKey(c, true) == SystemPrefix(g) + MemberName(c);
    assert RealKey(d, true) == SystemPrefix(h) + MemberName(d);
    if RealKey(c, true) == RealKey(d, true) {
      if g != h {
        var k := SystemPrefixesDiverge(g, h);
        CharAt(SystemPrefix(g), MemberName(c), k);
        CharAt(SystemPrefix(h), MemberName(d), k);
        assert false;
      }
      assert MemberName(c) == RealKey(c, true)[|SystemPrefix(g)|..];
      assert MemberName(d) == RealKey(d, true)[|SystemPrefix(h)|..];
      SuffixesDistinct(c, d);
    }
  }

  type Decoded = Dict<seq<Value>>

  /** What the decoder does with one slot and its reply entry: the response
      key and the decoded value, or the error that aborts the read. */
  type EntryStep = (Control, ResponseEntry) -> Result<(string, Value), ApiError>

  /** The `Value` dict the loop body of `_read_values` builds from one reply
      entry: `"value"` from `_convert_value`, evaluated first, then
      `"attributes"` from `_clean_attributes`. */
  function DecodeEntry(c: Control, entry: ResponseEntry, humanReadable: bool): (r: Result<Value, ApiError>)
    ensures r.Ok? <==> Convert(c, entry, humanReadable).Ok? && !entry.attributes.NullAttributes?
    ensures entry.value.None? ==> r == Err(MissingValue(entry))
    ensures Convert(c, entry, humanReadable).Ok? && entry.attributes.NullAttributes? ==>
              r == Err(AttributesNotObject(entry))
    ensures r.Ok? ==> r.value.value == Convert(c, entry, humanReadable).value
  {
    var v :- Convert(c, entry, humanReadable);
    var attrs :- CleanAttributes(entry);
    Ok(Value(v, attrs))
  }

  /** The step of `_read_values`: decode the entry for the slot's control
      and file it under the control's response key. */
  function Step(keyPrefix: bool, humanReadable: bool): EntryStep {
    (c: Control, entry: ResponseEntry) =>
      match DecodeEntry(c, entry, humanReadable)
      case Err(e) => Err(e)
      case Ok(v) => Ok((RealKey(c, keyPrefix), v))
  }

  /** The step fails exactly when decoding the entry does, with the same
      error; otherwise it files the decoded value under the control's
      response key. */
  lemma StepOf(c: Control, entry: ResponseEntry, keyPrefix: bool, humanReadable: bool)
    ensures Step(keyPrefix, humanReadable)(c, entry).Ok? <==> DecodeEntry(c, entry, humanReadable).Ok?
    ensures DecodeEntry(c, entry, humanReadable).Err? ==>
              Step(keyPrefix, humanReadable)(c, entry) == Err(DecodeEntry(c, entry, humanReadable).error)
    ensures DecodeEntry(c, entry, humanReadable).Ok? ==>
              Step(keyPrefix, humanReadable)(c, entry)
              == Ok((RealKey(c, keyPrefix), DecodeEntry(c, entry, humanReadable).value))
  {
  }

  /** The decode loop of `_read_values`, continuing from `acc`: each slot
      takes the head of the reply, appends its value under its key and drops
      the head. */
  function DecodeInto(step: EntryStep, plan: seq<PlanItem>, reply: seq<ResponseEntry>, acc: Decoded)
    : Result<Decoded, ApiError>
    decreases |plan|
  {
    if |plan| == 0 then Ok(acc)
    else if |reply| == 0 then Err(MissingEntry)
    else
      match step(plan[0].control, reply[0])
      case Err(e) => Err(e)
      case Ok(kv) => DecodeInto(step, plan[1..], reply[1..], AppendTo(acc, kv.0, kv.1))
  }

  function Decode(plan: seq<PlanItem>, reply: seq<ResponseEntry>, keyPrefix: bool, humanReadable: bool)
    : Result<Decoded, ApiError>
  {
    DecodeInto(Step(keyPrefix, humanReadable), plan, reply, [])
  }

  /** A reply the decoder can walk: at least one entry per slot, and the
      step succeeds on the entry of every slot. */
  ghost predicate Decodable(step: EntryStep, plan: seq<PlanItem>, reply: seq<ResponseEntry>) {
    |reply| >= |plan|
    && forall k :: 0 <= k < |plan| ==> step(plan[k].control, reply[k]).Ok?
  }

  lemma DecodableTail(step: EntryStep, plan: seq<PlanItem>, reply: seq<ResponseEntry>)
    requires |plan| > 0
    ensures Decodable(step, plan, reply) <==>
              |reply| > 0 && step(plan[0].control, reply[0]).Ok? && Decodable(step, plan[1..], reply[1..])
  {
    if |reply| > 0 && step(plan[0].control, reply[0]).Ok? && Decodable(step, plan[1..], reply[1..]) {
      forall k | 0 <= k < |plan| ensures step(plan[k].control, reply[k]).Ok? {
        if k > 0 {
          assert plan[1..][k - 1] == plan[k] && reply[1..][k - 1] == reply[k];
        }
      }
    }
    if Decodable(step, plan, reply) {
      forall k | 0 <= k < |plan[1..]| ensures step(plan[1..][k].control, reply[1..][k]).Ok? {
        assert plan[1..][k] == plan[k + 1] && reply[1..][k] == reply[k + 1];
      }
    }
  }

  /** The values of the slots filed under `key`, in plan order; slot k's
      value comes from reply entry k. */
  ghost function ValuesFor(step: EntryStep, plan: seq<PlanItem>, reply: seq<ResponseEntry>, key: string)
    : seq<Value>
    requires Decodable(step, plan, reply)
    decreases |plan|
  {
    if |plan| == 0 then []
    else
      DecodableTail(step, plan, reply);
      var kv := step(plan[0].control, reply[0]).value;
      (if kv.0 == key then [kv.1] else []) + ValuesFor(step, plan[1..], reply[1..], key)
  }

  /** The decoder succeeds exactly when every slot has an entry its step
      accepts; otherwise it fails with the first slot's error, or with
      `MissingEntry` when the reply runs out first. */
  lemma {:induction false} DecodeSucceeds(step: EntryStep, plan: seq<PlanItem>, reply: seq<ResponseEntry>,
                                          acc: Decoded)
    ensures DecodeInto(step, plan, reply, acc).Ok? <==> Decodable(step, plan, reply)
    decreases |plan|
  {
    if |plan| > 0 {
      DecodableTail(step, plan, reply);
      if |reply| > 0 && step(plan[0].control, reply[0]).Ok? {
        var kv := step(plan[0].control, reply[0]).value;
        DecodeSucceeds(step, plan[1..], reply[1..], AppendTo(acc, kv.0, kv.1));
      }
    }
  }

  /** The decoder consumes the reply in lock step with the plan: on a
      decodable reply the list under each key holds, after what `acc`
      already held, the values decoded from the reply entries at the
      positions of the slots filed under that key, in order. */
  lemma {:induction false} DecodeLockStep(step: EntryStep, plan: seq<PlanItem>, reply: seq<ResponseEntry>,
                                          acc: Decoded, key: string)
    requires Decodable(step, plan, reply)
    ensures DecodeInto(step, plan, reply, acc).Ok?
    ensures Get(DecodeInto(step, plan, reply, acc).value, key).GetOr([])
            == Get(acc, key).GetOr([]) + ValuesFor(step, plan, reply, key)
    decreases |plan|
  {
    DecodeSucceeds(step, plan, reply, acc);
    if |plan| > 0 {
      DecodableTail(step, plan, reply);
      var kv := step(plan[0].control, reply[0]).value;
      var acc' := AppendTo(acc, kv.0, kv.1);
      var head := if kv.0 == key then [kv.1] else [];
      DecodeLockStep(step, plan[1..], reply[1..], acc', key);
      assert DecodeInto(step, plan, reply, acc) == DecodeInto(step, plan[1..], reply[1..], acc');
      assert ValuesFor(step, plan, reply, key) == head + ValuesFor(step, plan[1..], reply[1..], key);
      assert Get(acc', key).GetOr([]) == Get(acc, key).GetOr([]) + head;
      AppendAssociates(Get(acc, key).GetOr([]), head, ValuesFor(step, plan[1..], reply[1..], key));
    } else {
      assert Get(acc, key).GetOr([]) + [] == Get(acc, key).GetOr([]);
    }
  }

  /** On a decodable reply a key is present in the result exactly when
      `acc` had it or some slot is filed under it. */
  lemma {:induction false} DecodeKeys(step: EntryStep, plan: seq<PlanItem>, reply: seq<ResponseEntry>,
                                      acc: Decoded, key: string)
    requires Decodable(step, plan, reply)
    ensures DecodeInto(step, plan, reply, acc).Ok?
    ensures HasKey(DecodeInto(step, plan, reply, acc).value, key)
            <==> HasKey(acc, key) || |ValuesFor(step, plan, reply, key)| > 0
    decreases |plan|
  {
    DecodeSucceeds(step, plan, reply, acc);
    if |plan| > 0 {
      DecodableTail(step, plan, reply);
      var kv := step(plan[0].control, reply[0]).value;
      var acc' := AppendTo(acc, kv.0, kv.1);
      DecodeKeys(step, plan[1..], reply[1..], acc', key);
      assert DecodeInto(step, plan, reply, acc) == DecodeInto(step, plan[1..], reply[1..], acc');
      assert |ValuesFor(step, plan, reply, key)|
             == (if kv.0 == key then 1 else 0) + |ValuesFor(step, plan[1..], reply[1..], key)|;
    }
  }

  /** The key and value slot `k` of a decodable reply decodes to. */
  ghost function SlotResult(step: EntryStep, plan: seq<PlanItem>, reply: seq<ResponseEntry>, k: nat): (string, Value)
    requires Decodable(step, plan, reply) && k < |plan|
  {
    step(plan[k].control, reply[k]).value
  }

  /** One single-value list per slot, in plan order. */
  ghost function Singletons(step: EntryStep, plan: seq<PlanItem>, reply: seq<ResponseEntry>): (r: Decoded)
    requires Decodable(step, plan, reply)
    ensures |r| == |plan|
  {
    seq(|plan|, k requires 0 <= k < |plan| => (SlotResult(step, plan, reply, k).0, [SlotResult(step, plan, reply, k).1]))
  }

  /** When no two slots share a key and none of the keys is in `acc` yet,
      every slot gets a one-element list of its own, appended to `acc` in
      plan order. */
  lemma {:induction false} DecodeDistinctKeys(step: EntryStep, plan: seq<PlanItem>, reply: seq<ResponseEntry>,
                                              acc: Decoded)
    requires Decodable(step, plan, reply)
    requires forall i, j :: 0 <= i < j < |plan| ==> SlotResult(step, plan, reply, i).0 != SlotResult(step, plan, reply, j).0
    requires forall i :: 0 <= i < |plan| ==> !HasKey(acc, SlotResult(step, plan, reply, i).0)
    ensures DecodeInto(step, plan, reply, acc) == Ok(acc + Singletons(step, plan, reply))
    decreases |plan|
  {
    if |plan| == 0 {
      assert acc + [] == acc;
    } else {
      var kv := SlotResult(step, plan, reply, 0);
      var acc' := AppendTo(acc, kv.0, kv.1);
      assert acc' == acc + [(kv.0, [kv.1])];
      SlotResultsTail(step, plan, reply);
      DecodeDistinctKeys(step, plan[1..], reply[1..], acc');
      AppendAssociates(acc, [(kv.0, [kv.1])], Singletons(step, plan[1..], reply[1..]));
    }
  }

  lemma SlotResultsTail(step: EntryStep, plan: seq<PlanItem>, reply: seq<ResponseEntry>)
    requires Decodable(step, plan, reply) && |plan| > 0
    ensures Decodable(step, plan[1..], reply[1..])
    ensures forall i :: 0 <= i < |plan| - 1 ==>
              SlotResult(step, plan[1..], reply[1..], i) == SlotResult(step, plan, reply, i + 1)
    ensures Singletons(step, plan, reply)
            == [(SlotResult(step, plan, reply, 0).0, [SlotResult(step, plan, reply, 0).1])]
               + Singletons(step, plan[1..], reply[1..])
  {
    DecodableTail(step, plan, reply);
    var tail, rest := plan[1..], reply[1..];
    forall i | 0 <= i < |tail| ensures SlotResult(step, tail, rest, i) == SlotResult(step, plan, reply, i + 1) {
      assert tail[i] == plan[i + 1] && rest[i] == reply[i + 1];
    }
  }

  /** A one-slot plan decodes to a one-entry result. */
  lemma DecodeSingle(step: EntryStep, item: PlanItem, reply: seq<ResponseEntry>)
    requires |reply| >= 1 && step(item.control, reply[0]).Ok?
    ensures DecodeInto(step, [item], reply, [])
            == Ok([(step(item.control, reply[0]).value.0, [step(item.control, reply[0]).value.1])])
  {
    var kv := step(item.control, reply[0]).value;
    var empty: Decoded := [];
    assert AppendTo(empty, kv.0, kv.1) == [(kv.0, [kv.1])];
    assert [item][1..] == [];
  }

  lemma AppendAssociates<T>(a: seq<T>, b: seq<T>, c: seq<T>)
    ensures (a + b) + c == a + (b + c)
  {
  }

  /** Entries past the end of the plan are never read. */
  lemma {:induction false} DecodeIgnoresSurplus(step: EntryStep, plan: seq<PlanItem>, reply: seq<ResponseEntry>,
                                                acc: Decoded)
    requires |reply| >= |plan|
    ensures DecodeInto(step, plan, reply, acc) == DecodeInto(step, plan, reply[..|plan|], acc)
    decreases |plan|
  {
    if |plan| > 0 {
      var short := reply[..|plan|];
      assert short[0] == reply[0];
      assert short[1..] == reply[1..][..|plan| - 1];
      match step(plan[0].control, reply[0])
      case Err(e) =>
        assert DecodeInto(step, plan, short, acc) == Err(e);
      case Ok(kv) =>
        var acc' := AppendTo(acc, kv.0, kv.1);
        DecodeIgnoresSurplus(step, plan[1..], reply[1..], acc');
        assert DecodeInto(step, plan, short, acc) == DecodeInto(step, plan[1..], short[1..], acc');
    }
  }

  /** The number of slots a control occupies in a plan. */
  function SlotsOf(plan: seq<PlanItem>, c: Control): nat
    decreases |plan|
  {
    if |plan| == 0 then 0
    else (if plan[0].control == c then 1 else 0) + SlotsOf(plan[1..], c)
  }

  /** With prefixed keys, the list under a control's key has one value for
      each slot of that control. */
  lemma {:induction false} ValuesPerControl(plan: seq<PlanItem>, reply: seq<ResponseEntry>, humanReadable: bool,
                                            c: Control)
    requires Decodable(Step(true, humanReadable), plan, reply)
    ensures |ValuesFor(Step(true, humanReadable), plan, reply, RealKey(c, true))| == SlotsOf(plan, c)
    decreases |plan|
  {
    if |plan| > 0 {
      var step := Step(true, humanReadable);
      DecodableTail(step, plan, reply);
      StepOf(plan[0].control, reply[0], true, humanReadable);
      RealKeyPrefix(plan[0].control, c);
      ValuesPerControl(plan[1..], reply[1..], humanReadable, c);
    }
  }

  // ---------------------------------------------------------------------------
  // `_read_values`
  // ---------------------------------------------------------------------------

  /** What one read sends and what it returns for a given reply. */
  datatype ReadExchange = ReadExchange(payload: seq<ReadEntry>, result: Result<Decoded, ApiError>)

  /** `_read_values` as written: the payload walks the payload plan, the
      decoder the decoder plan. */
  function ReadValuesAsWritten(request: seq<Control>, arg: PositionArg, allowed: Option<seq<Group>>,
                               keyPrefix: bool, humanReadable: bool, extra: bool,
                               reply: seq<ResponseEntry>): ReadExchange
  {
    var pos := NormalizePositions(arg);
    ReadExchange(ReadPayload(request, pos, allowed, extra),
                 Decode(Plan(request, pos, DecoderWalk, allowed), reply, keyPrefix, humanReadable))
  }

  /** `_read_values` with the decoder walking the plan the payload was
      built from. */
  function ReadValues(request: seq<Control>, arg: PositionArg, allowed: Option<seq<Group>>,
                      keyPrefix: bool, humanReadable: bool, extra: bool,
                      reply: seq<ResponseEntry>): ReadExchange
  {
    var pos := NormalizePositions(arg);
    ReadExchange(ReadPayload(request, pos, allowed, extra),
                 Decode(Plan(request, pos, PayloadWalk, allowed), reply, keyPrefix, humanReadable))
  }

  /** Whenever the filter is absent or non-empty the two agree. */
  lemma ReadValuesAgree(request: seq<Control>, arg: PositionArg, allowed: Option<seq<Group>>,
                        keyPrefix: bool, humanReadable: bool, extra: bool, reply: seq<ResponseEntry>)
    requires allowed != Some([])
    ensures ReadValuesAsWritten(request, arg, allowed, keyPrefix, humanReadable, extra, reply)
            == ReadValues(request, arg, allowed, keyPrefix, humanReadable, extra, reply)
  {
    PlansAgree(request, NormalizePositions(arg), allowed);
  }

  /** With an empty filter list, reading the first hot-water tank's
      temperature sends an empty payload, yet the decoder as written still
      expects one reply entry and fails on the empty reply; the corrected
      read returns an empty result. */
  lemma EmptyFilterMismatch()
    ensures ReadValuesAsWritten([HotWaterTank(HotWaterTankKey.Temperature)], SingleArg(Some(1)), Some([]), true, true, false, []).payload == []
    ensures ReadValuesAsWritten([HotWaterTank(HotWaterTankKey.Temperature)], SingleArg(Some(1)), Some([]), true, true, false, []).result
            == Err(MissingEntry)
    ensures ReadValues([HotWaterTank(HotWaterTankKey.Temperature)], SingleArg(Some(1)), Some([]), true, true, false, []).result
            == Ok([])
  {
    var request := [HotWaterTank(HotWaterTankKey.Temperature)];
    var pos := Indices([Some(1)]);
    assert request[1..] == [];
    assert PositionIndex(HotWaterTank(HotWaterTankKey.Temperature), pos) == [Some(0)];
    assert Plan(request, pos, DecoderWalk, Some([])) == [PlanItem(HotWaterTank(HotWaterTankKey.Temperature), Some(0))];
  }

  /** The corrected read consumes the reply in lock step with its own
      payload: slot k of the payload plan was requested under the name in
      payload entry k and is decoded from reply entry k. */
  lemma ReadValuesLockStep(request: seq<Control>, arg: PositionArg, allowed: Option<seq<Group>>,
                           keyPrefix: bool, humanReadable: bool, extra: bool, reply: seq<ResponseEntry>)
    ensures var plan := Plan(request, NormalizePositions(arg), PayloadWalk, allowed);
            var x := ReadValues(request, arg, allowed, keyPrefix, humanReadable, extra, reply);
            && |x.payload| == |plan|
            && (forall k :: 0 <= k < |plan| ==> x.payload[k].name == DotPath(plan[k].control, plan[k].index))
            && (x.result.Ok? <==> Decodable(Step(keyPrefix, humanReadable), plan, reply))
            && (x.result.Ok? ==> forall key :: Get(x.result.value, key).GetOr([])
                                  == ValuesFor(Step(keyPrefix, humanReadable), plan, reply, key))
  {
    var pos := NormalizePositions(arg);
    ReadPayloadFollowsPlan(request, pos, allowed, extra);
    var plan := Plan(request, pos, PayloadWalk, allowed);
    var step := Step(keyPrefix, humanReadable);
    DecodeSucceeds(step, plan, reply, []);
    if Decodable(step, plan, reply) {
      forall key ensures Get(Decode(plan, reply, keyPrefix, humanReadable).value, key).GetOr([])
                         == ValuesFor(step, plan, reply, key) {
        DecodeLockStep(step, plan, reply, [], key);
      }
    }
  }
}
