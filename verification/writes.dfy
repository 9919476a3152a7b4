/** The write side of `BaseSection`: `_generate_write_payload`, which turns
    a mapping from controls to value lists into `WritePayload` entries. */
module Writes {
  import opened Wrappers
  import opened Text
  import opened Constants
  import opened Paths
  import opened Responses

  /** One `WritePayload` entry. */
  datatype WriteEntry = WriteEntry(name: string, value: string)

  /** `str(value)`. A float is kept as the text Python would print for it. */
  function Show(v: Scalar): (r: string)
    ensures v.IntValue? ==> ParseInt(r) == Some(v.i)
    ensures v.FloatValue? ==> r == v.text
    ensures v.StrValue? ==> r == v.s
  {
    match v
    case IntValue(i) => IntRoundTrip(i); IntToString(i)
    case FloatValue(text) => text
    case StrValue(s) => s
  }

  /** `enumerate(values)` without the `None` slots, from slot `from` on:
      each present value with its 0-based slot. */
  function PresentSlots(vals: seq<Option<Scalar>>, from: nat): seq<(nat, Scalar)>
    decreases |vals| - from
  {
    if from >= |vals| then []
    else (if vals[from].Some? then [(from, vals[from].value)] else []) + PresentSlots(vals, from + 1)
  }

  /** The entry written for a value in a slot: the control's path at the
      slot's wire index and the printed value. */
  function SlotEntry(c: Control, slot: (nat, Scalar)): WriteEntry {
    WriteEntry(DotPath(c, Some(slot.0)), Show(slot.1))
  }

  /** The entries of one control's value list, one per present slot. */
  function ValueEntries(c: Control, vals: seq<Option<Scalar>>): (r: seq<WriteEntry>)
    ensures |r| == |PresentSlots(vals, 0)|
    ensures forall k :: 0 <= k < |r| ==> r[k] == SlotEntry(c, PresentSlots(vals, 0)[k])
  {
    var slots := PresentSlots(vals, 0);
    seq(|slots|, k requires 0 <= k < |slots| => SlotEntry(c, slots[k]))
  }

  /** The request of `_write_values`: controls with their value lists, in
      the mapping's insertion order. */
  type WriteRequest = seq<(Control, seq<Option<Scalar>>)>

  /** `_generate_write_payload`: read-only controls are skipped without a
      word, and so is every `None` slot. */
  function WritePayload(request: WriteRequest): seq<WriteEntry>
    decreases |request|
  {
    if |request| == 0 then []
    else
      var (c, vals) := request[0];
      (if Spec(c).readOnly then [] else ValueEntries(c, vals)) + WritePayload(request[1..])
  }

  /** Number of present slots. */
  function CountSome<T>(xs: seq<Option<T>>): nat
    decreases |xs|
  {
    if |xs| == 0 then 0 else (if xs[|xs| - 1].Some? then 1 else 0) + CountSome(xs[..|xs| - 1])
  }

  lemma {:induction false} PresentSlotsSplit(vals: seq<Option<Scalar>>, from: nat, last: Option<Scalar>)
    requires from <= |vals|
    ensures PresentSlots(vals + [last], from)
            == PresentSlots(vals, from) + (if last.Some? then [(|vals|, last.value)] else [])
    decreases |vals| - from
  {
    var vs := vals + [last];
    if from < |vals| {
      assert vs[from] == vals[from];
      PresentSlotsSplit(vals, from + 1, last);
    } else {
      assert vs[from] == last;
      assert PresentSlots(vs, from + 1) == [];
    }
  }

  /** Extending a value list by one slot appends at most one entry: the
      entry for the new slot, addressed by its index, exactly when the slot
      holds a value. So entries come in slot order. */
  lemma ValueEntriesSnoc(c: Control, vals: seq<Option<Scalar>>, last: Option<Scalar>)
    ensures ValueEntries(c, []) == []
    ensures ValueEntries(c, vals + [last])
            == ValueEntries(c, vals) + (if last.Some? then [SlotEntry(c, (|vals|, last.value))] else [])
  {
    PresentSlotsSplit(vals, 0, last);
  }

  /** One entry per present value. */
  lemma {:induction false} ValueEntriesCount(c: Control, vals: seq<Option<Scalar>>)
    ensures |ValueEntries(c, vals)| == CountSome(vals)
    decreases |vals|
  {
    if |vals| > 0 {
      var init, last := vals[..|vals| - 1], vals[|vals| - 1];
      assert vals == init + [last];
      PresentSlotsSplit(init, 0, last);
      ValueEntriesCount(c, init);
    }
  }

  /** The slots written are exactly the present ones: (i, v) is written
      iff slot i holds v, so `None` slots give nothing. */
  lemma {:induction false} PresentSlotsExactly(vals: seq<Option<Scalar>>, slot: (nat, Scalar))
    ensures slot in PresentSlots(vals, 0) <==> slot.0 < |vals| && vals[slot.0] == Some(slot.1)
    decreases |vals|
  {
    if |vals| > 0 {
      var init, last := vals[..|vals| - 1], vals[|vals| - 1];
      assert vals == init + [last];
      PresentSlotsSplit(init, 0, last);
      PresentSlotsExactly(init, slot);
      if slot.0 < |init| {
        assert vals[slot.0] == init[slot.0];
      }
    }
  }

  /** The payload is control-major: a concatenated request writes the
      entries of its parts in order, and a single control writes its
      value entries unless it is read-only. */
  lemma {:induction false} WritePayloadConcat(a: WriteRequest, b: WriteRequest)
    ensures WritePayload(a + b) == WritePayload(a) + WritePayload(b)
    ensures forall c, vals :: WritePayload([(c, vals)]) == if Spec(c).readOnly then [] else ValueEntries(c, vals)
    decreases |a|
  {
    if |a| > 0 {
      assert (a + b)[1..] == a[1..] + b;
      assert (a + b)[0] == a[0];
      WritePayloadConcat(a[1..], b);
    } else {
      assert a + b == b;
    }
    forall c, vals ensures WritePayload([(c, vals)]) == if Spec(c).readOnly then [] else ValueEntries(c, vals) {
      assert [(c, vals)][1..] == [];
    }
  }

  /** Only the eight writable controls ever reach the payload. */
  lemma ReadOnlyDropped(c: Control, vals: seq<Option<Scalar>>)
    ensures !IsWritable(c) ==> WritePayload([(c, vals)]) == []
    ensures IsWritable(c) ==> WritePayload([(c, vals)]) == ValueEntries(c, vals)
  {
    WritableExactly(c);
    WritePayloadConcat([], []);
  }
}
