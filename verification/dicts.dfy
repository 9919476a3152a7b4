/** Python's insertion-ordered `dict` with string keys: a sequence of
    (key, value) pairs in insertion order. Assigning to a present key
    replaces its value in place; a new key goes to the end. */
module Dicts {
  import opened Wrappers

  type Dict<V> = seq<(string, V)>

  ghost predicate DistinctKeys<V>(d: Dict<V>) {
    forall i, j :: 0 <= i < j < |d| ==> d[i].0 != d[j].0
  }

  function Keys<V>(d: Dict<V>): (r: seq<string>)
    ensures |r| == |d|
    ensures forall i :: 0 <= i < |d| ==> r[i] == d[i].0
  {
    seq(|d|, i requires 0 <= i < |d| => d[i].0)
  }

  /** The slot holding `k`, the first one if keys repeat. */
  function IndexOf<V>(d: Dict<V>, k: string): (r: Option<nat>)
    ensures r.Some? ==> r.value < |d| && d[r.value].0 == k
    ensures r.Some? ==> forall i :: 0 <= i < r.value ==> d[i].0 != k
    ensures r.None? <==> forall i :: 0 <= i < |d| ==> d[i].0 != k
  {
    if |d| == 0 then None
    else if d[0].0 == k then Some(0)
    else match IndexOf(d[1..], k)
      case None => None
      case Some(i) => Some(i + 1)
  }

  /** `d.get(k)`. */
  function Get<V>(d: Dict<V>, k: string): (r: Option<V>)
    ensures r.Some? <==> HasKey(d, k)
    ensures r.Some? ==> exists i :: 0 <= i < |d| && d[i] == (k, r.value)
  {
    match IndexOf(d, k)
    case None => None
    case Some(i) => Some(d[i].1)
  }

  predicate HasKey<V>(d: Dict<V>, k: string) {
    IndexOf(d, k).Some?
  }

  /** `d[k] = v`. */
  function Put<V>(d: Dict<V>, k: string, v: V): (r: Dict<V>)
    ensures Get(r, k) == Some(v)
    ensures forall k' :: k' != k ==> Get(r, k') == Get(d, k')
    ensures HasKey(d, k) ==> Keys(r) == Keys(d)
    ensures !HasKey(d, k) ==> Keys(r) == Keys(d) + [k]
    ensures DistinctKeys(d) ==> DistinctKeys(r)
    ensures !HasKey(d, k) ==> r == d + [(k, v)]
  {
    match IndexOf(d, k)
    case Some(i) =>
      SameKeysSameIndex(d, d[i := (k, v)]);
      d[i := (k, v)]
    case None =>
      AppendedIndex(d, k, v);
      d + [(k, v)]
  }

  /** Lookups depend on the keys only. */
  lemma {:induction false} SameKeysSameIndex<V>(d: Dict<V>, e: Dict<V>)
    requires |d| == |e|
    requires forall i :: 0 <= i < |d| ==> d[i].0 == e[i].0
    ensures forall k :: IndexOf(d, k) == IndexOf(e, k)
  {
    if |d| > 0 {
      SameKeysSameIndex(d[1..], e[1..]);
    }
  }

  /** Appending a new key leaves the lookup of every other key alone. */
  lemma {:induction false} AppendedIndex<V>(d: Dict<V>, k: string, v: V)
    requires !HasKey(d, k)
    ensures IndexOf(d + [(k, v)], k) == Some(|d|)
    ensures forall k' :: k' != k ==> IndexOf(d + [(k, v)], k') == IndexOf(d, k')
  {
    if |d| > 0 {
      assert (d + [(k, v)])[1..] == d[1..] + [(k, v)];
      AppendedIndex(d[1..], k, v);
    }
  }

  /** How the read decoder grows the list of values it has seen for a
      response key: start an empty list unless the key holds a non-empty
      one, then append. */
  function AppendTo<V>(d: Dict<seq<V>>, k: string, v: V): (r: Dict<seq<V>>)
    ensures Get(r, k) == Some(Get(d, k).GetOr([]) + [v])
    ensures forall k' :: k' != k ==> Get(r, k') == Get(d, k')
    ensures forall k' :: HasKey(r, k') <==> HasKey(d, k') || k' == k
    ensures !HasKey(d, k) ==> r == d + [(k, [v])]
  {
    assert !HasKey(d, k) ==> Get(d, k).GetOr([]) + [v] == [v];
    var r := Put(d, k, Get(d, k).GetOr([]) + [v]);
    assert forall k' :: HasKey(r, k') <==> Get(r, k').Some?;
    r
  }
}
