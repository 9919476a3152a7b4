/** Position resolution and dot-path assembly of `BaseSection`: how a
    caller's position argument becomes the list of wire indices a control is
    read at, and how (control, index) becomes the device's dot-path name. */
module Paths {
  import opened Wrappers
  import opened Text
  import opened Constants

  /** `Position`: the number of heat pumps, heating circuits and hot-water
      tanks installed, as `get_positions` reports them. */
  datatype Position = Position(heatPump: int, heatCircuit: int, hotWaterTank: int)

  /** `getattr(position, field, None)`. */
  function PositionField(p: Position, field: string): Option<int> {
    if field == "heat_pump" then Some(p.heatPump)
    else if field == "heat_circuit" then Some(p.heatCircuit)
    else if field == "hot_water_tank" then Some(p.hotWaterTank)
    else None
  }

  /** The count a `Position` holds for a group: none for the two groups
      without a field. */
  function GroupCount(p: Position, g: Group): Option<int> {
    match g
    case OptionsGroup => None
    case OutdoorGroup => None
    case HotWaterTankGroup => Some(p.hotWaterTank)
    case HeatPumpGroup => Some(p.heatPump)
    case HeatCircuitGroup => Some(p.heatCircuit)
  }

  /** Looking a group's lower snake-case name up on a `Position` finds the
      group's own count, and nothing for Options and Outdoor. */
  lemma PositionFieldOfGroup(p: Position, g: Group)
    ensures PositionField(p, PositionKey(g)) == GroupCount(p, g)
  {
  }

  /** The caller's position argument: a `Position`, a list of 1-based
      positions (`None` for an un-indexed path), or a single one of those. */
  datatype PositionArg =
    | CountsArg(counts: Position)
    | ListArg(positions: seq<Option<int>>)
    | SingleArg(position: Option<int>)

  /** The argument after `_read_values` has wrapped a single position in a
      list. */
  datatype Positions = Counts(counts: Position) | Indices(positions: seq<Option<int>>)

  function NormalizePositions(arg: PositionArg): (r: Positions)
    ensures arg.CountsArg? <==> r.Counts?
    ensures arg.SingleArg? ==> r == Indices([arg.position])
    ensures arg.ListArg? ==> r == Indices(arg.positions)
  {
    match arg
    case CountsArg(p) => Counts(p)
    case ListArg(ps) => Indices(ps)
    case SingleArg(p) => Indices([p])
  }

  /** `list(range(n))`, each index present; empty for `n <= 0`. */
  function Range(n: int): (r: seq<Option<int>>)
    ensures |r| == (if n < 0 then 0 else n)
    ensures forall i :: 0 <= i < |r| ==> r[i] == Some(i)
  {
    seq(if n < 0 then 0 else n, i requires 0 <= i => Some(i))
  }

  /** 1-based caller positions to 0-based wire indices; `None` stays. */
  function WireIndices(ps: seq<Option<int>>): (r: seq<Option<int>>)
    ensures |r| == |ps|
  {
    seq(|ps|, i requires 0 <= i < |ps| => if ps[i].None? then None else Some(ps[i].value - 1))
  }

  /** `_get_position_index`: the wire indices a control is read at. */
  function PositionIndex(c: Control, pos: Positions): (r: seq<Option<int>>)
    ensures c.Options? ==> r == [None]
  {
    if c.Options? then [None]
    else match pos
      case Counts(p) =>
        var n := PositionField(p, PositionKey(GroupOf(c)));
        if n.Some? && n.value != 0 then Range(n.value) else [None]
      case Indices(ps) => WireIndices(ps)
  }

  /** A count `n` other than zero yields the indices 0 .. n-1 (none at all
      for a negative count); a count of zero, or a group `Position` has no
      field for, yields the single un-indexed path. */
  lemma PositionIndexOfCounts(c: Control, p: Position)
    requires !c.Options?
    ensures GroupCount(p, GroupOf(c)).None? ==> PositionIndex(c, Counts(p)) == [None]
    ensures GroupCount(p, GroupOf(c)) == Some(0) ==> PositionIndex(c, Counts(p)) == [None]
    ensures forall n :: n != 0 && GroupCount(p, GroupOf(c)) == Some(n) ==>
              |PositionIndex(c, Counts(p))| == (if n < 0 then 0 else n)
    ensures forall n, i :: n != 0 && GroupCount(p, GroupOf(c)) == Some(n) && 0 <= i < n ==>
              PositionIndex(c, Counts(p))[i] == Some(i)
    ensures c.Outdoor? ==> PositionIndex(c, Counts(p)) == [None]
  {
    PositionFieldOfGroup(p, GroupOf(c));
  }

  /** A list of caller positions keeps its length; each position `q`
      becomes `q - 1` and `None` stays `None`, so adding one back recovers
      the caller's list. */
  lemma PositionIndexOfList(c: Control, ps: seq<Option<int>>)
    requires !c.Options?
    ensures |PositionIndex(c, Indices(ps))| == |ps|
    ensures forall i :: 0 <= i < |ps| ==>
              (PositionIndex(c, Indices(ps))[i].None? <==> ps[i].None?)
    ensures forall i :: 0 <= i < |ps| && ps[i].Some? ==>
              PositionIndex(c, Indices(ps))[i] == Some(ps[i].value - 1)
    ensures CallerPositions(PositionIndex(c, Indices(ps))) == ps
  {
    var r := PositionIndex(c, Indices(ps));
    assert r == WireIndices(ps);
    assert forall i :: 0 <= i < |ps| ==> CallerPositions(r)[i] == ps[i];
  }

  /** The 1-based positions behind a list of wire indices. */
  function CallerPositions(idx: seq<Option<int>>): (r: seq<Option<int>>)
    ensures |r| == |idx|
  {
    seq(|idx|, i requires 0 <= i < |idx| => if idx[i].None? then None else Some(idx[i].value + 1))
  }

  // ---------------------------------------------------------------------------
  // Dot-paths
  // ---------------------------------------------------------------------------

  /** `_get_position`: `[i]` for an index, nothing for `None`. */
  function IndexText(idx: Option<int>): (r: string)
    ensures idx.None? <==> |r| == 0
    ensures idx.Some? ==> r == "[" + IntToString(idx.value) + "]"
  {
    match idx
    case None => ""
    case Some(i) => "[" + IntToString(i) + "]"
  }

  /** The name under which the device knows a control at an index. */
  function DotPath(c: Control, idx: Option<int>): string {
    PathOf(GroupOf(c), idx, Spec(c).suffix)
  }

  /** A group's prefix, the optional printed index, a dot and a suffix. */
  function PathOf(g: Group, idx: Option<int>, suffix: string): string {
    KeyPrefix(g) + IndexText(idx) + "." + suffix
  }

  /** The characters that end a leaf or a printed index inside a path. */
  predicate IsStop(ch: char) {
    ch == '[' || ch == ']' || ch == '.'
  }

  /** Two concatenations whose left parts contain no stop character and whose
      right parts start with one split at the same place. */
  lemma SplitAtStop(x: string, r: string, y: string, t: string)
    requires forall i :: 0 <= i < |x| ==> !IsStop(x[i])
    requires forall i :: 0 <= i < |y| ==> !IsStop(y[i])
    requires |r| > 0 && IsStop(r[0])
    requires |t| > 0 && IsStop(t[0])
    requires x + r == y + t
    ensures x == y && r == t
  {
    // The first stop character of the common string sits at |x| and at |y|.
    assert |x| == |y| by {
      if |x| < |y| {
        CharAt(x, r, |x|);
        assert false;
      } else if |y| < |x| {
        CharAt(y, t, |y|);
        assert false;
      }
    }
    assert x == (x + r)[..|x|];
    assert y == (y + t)[..|y|];
    assert r == (x + r)[|x|..];
    assert t == (y + t)[|y|..];
  }

  lemma CharAt(x: string, r: string, k: nat)
    requires k < |x| + |r|
    ensures (x + r)[k] == if k < |x| then x[k] else r[k - |x|]
  {
  }

  /** The part of a path after the group leaf. */
  function PathTail(idx: Option<int>, suffix: string): string {
    IndexText(idx) + "." + suffix
  }

  lemma PathParts(g: Group, idx: Option<int>, suffix: string)
    ensures PathOf(g, idx, suffix) == ParamRoot + (PrefixLeaf(g) + PathTail(idx, suffix))
    ensures |PathTail(idx, suffix)| > 0 && IsStop(PathTail(idx, suffix)[0])
    ensures forall i :: 0 <= i < |PrefixLeaf(g)| ==> !IsStop(PrefixLeaf(g)[i])
  {
    KeyPrefixUnderRoot(g, g);
    SplitUnderRoot(KeyPrefix(g), PrefixLeaf(g), IndexText(idx), suffix);
    TailStart(idx, suffix);
    forall i | 0 <= i < |PrefixLeaf(g)| ensures !IsStop(PrefixLeaf(g)[i]) {
      assert IsLetter(PrefixLeaf(g)[i]);
    }
  }

  lemma SplitUnderRoot(prefix: string, leaf: string, idxText: string, suffix: string)
    requires prefix == ParamRoot + leaf
    ensures prefix + idxText + "." + suffix == ParamRoot + (leaf + (idxText + "." + suffix))
  {
  }

  /** A (group, index, suffix) triple is determined by its path: the group
      leaf, the printed index and the suffix can each be read back. */
  lemma PathOfInjective(g: Group, i: Option<int>, s: string, h: Group, j: Option<int>, t: string)
    requires PathOf(g, i, s) == PathOf(h, j, t)
    ensures g == h && i == j && s == t
  {
    PathParts(g, i, s);
    PathParts(h, j, t);
    var a := PrefixLeaf(g) + PathTail(i, s);
    var b := PrefixLeaf(h) + PathTail(j, t);
    assert a == PathOf(g, i, s)[|ParamRoot|..];
    assert b == PathOf(h, j, t)[|ParamRoot|..];
    SplitAtStop(PrefixLeaf(g), PathTail(i, s), PrefixLeaf(h), PathTail(j, t));
    KeyPrefixUnderRoot(g, h);
    TailInjective(i, s, j, t);
  }

  /** Distinct (control, index) pairs have distinct dot-paths, because path
      suffixes are distinct within a group. */
  lemma DotPathInjective(c: Control, i: Option<int>, d: Control, j: Option<int>)
    requires DotPath(c, i) == DotPath(d, j)
    ensures c == d && i == j
  {
    PathOfInjective(GroupOf(c), i, Spec(c).suffix, GroupOf(d), j, Spec(d).suffix);
    SuffixesDistinct(c, d);
  }

  lemma TailInjective(i: Option<int>, s: string, j: Option<int>, t: string)
    requires PathTail(i, s) == PathTail(j, t)
    ensures i == j && s == t
  {
    var u, v := PathTail(i, s), PathTail(j, t);
    if i.None? && j.None? {
      assert s == u[1..];
      assert t == v[1..];
    } else if i.Some? && j.Some? {
      IndexedTail(i.value, s);
      IndexedTail(j.value, t);
      SplitAtStop(IntToString(i.value), "]." + s, IntToString(j.value), "]." + t);
      IntToStringInjective(i.value, j.value);
      assert s == ("]." + s)[2..];
      assert t == ("]." + t)[2..];
    } else {
      // One tail starts with `[`, the other with `.`.
      TailStart(i, s);
      TailStart(j, t);
      assert false;
    }
  }

  lemma TailStart(i: Option<int>, s: string)
    ensures |PathTail(i, s)| > 0
    ensures PathTail(i, s)[0] == if i.Some? then '[' else '.'
  {
  }

  /** An indexed tail is `[`, the printed index, then `].` and the suffix. */
  lemma IndexedTail(n: int, s: string)
    ensures PathTail(Some(n), s)[1..] == IntToString(n) + ("]." + s)
    ensures forall k :: 0 <= k < |IntToString(n)| ==> !IsStop(IntToString(n)[k])
  {
    assert PathTail(Some(n), s) == "[" + (IntToString(n) + ("]." + s));
  }
}
