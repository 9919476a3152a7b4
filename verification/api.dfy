/** `KebaKeEnergyAPI`: the device URL, the re-grouping of a flat read
    result into per-section buckets done by `read_data`, and `write_data`.
    The `SectionPrefix` strings the buckets are keyed by are parameters. */
module Api {
  import opened Wrappers
  import opened Text
  import opened Constants
  import opened Dicts
  import opened Responses
  import opened Reads
  import opened Writes

  // ---------------------------------------------------------------------------
  // Device URL
  // ---------------------------------------------------------------------------

  function Scheme(ssl: bool): string {
    if ssl then "https" else "http"
  }

  /** `device_url`: the scheme, `://` and the host. */
  function DeviceUrl(host: string, ssl: bool): (r: string)
    ensures StartsWith(r, Scheme(ssl) + "://")
    ensures r[|Scheme(ssl)| + 3..] == host
  {
    var r := Scheme(ssl) + "://" + host;
    assert r[..|Scheme(ssl)| + 3] == Scheme(ssl) + "://";
    r
  }

  /** The URL is an `https` one exactly when `ssl` is set. */
  lemma DeviceUrlScheme(host: string, ssl: bool)
    ensures StartsWith(DeviceUrl(host, ssl), "https://") <==> ssl
  {
    var r := DeviceUrl(host, ssl);
    if !ssl {
      assert r[4] == ':';
    }
  }

  /** Different hosts or schemes give different URLs. */
  lemma DeviceUrlInjective(h1: string, s1: bool, h2: string, s2: bool)
    requires DeviceUrl(h1, s1) == DeviceUrl(h2, s2)
    ensures h1 == h2 && s1 == s2
  {
    DeviceUrlScheme(h1, s1);
    DeviceUrlScheme(h2, s2);
  }

  // ---------------------------------------------------------------------------
  // Buckets
  // ---------------------------------------------------------------------------

  /** The four sections of a `read_data` result, in the order they are
      tried. */
  datatype Bucket = SystemBucket | HotWaterTankBucket | HeatPumpBucket | HeatCircuitBucket

  /** The `SectionPrefix` values. */
  datatype SectionPrefixes = SectionPrefixes(system: string, hotWaterTank: string, heatPump: string,
                                             heatCircuit: string)

  function BucketPrefix(p: SectionPrefixes, b: Bucket): string {
    match b
    case SystemBucket => p.system
    case HotWaterTankBucket => p.hotWaterTank
    case HeatPumpBucket => p.heatPump
    case HeatCircuitBucket => p.heatCircuit
  }

  /** The place of a bucket in the `elif` chain. */
  function Rank(b: Bucket): nat {
    match b
    case SystemBucket => 0
    case HotWaterTankBucket => 1
    case HeatPumpBucket => 2
    case HeatCircuitBucket => 3
  }

  predicate PrefixesDistinct(p: SectionPrefixes) {
    forall b, c :: b != c ==> BucketPrefix(p, b) != BucketPrefix(p, c)
  }

  /** A section's value: the system bucket keeps a single `Value`, the
      others the whole list. */
  datatype Item = Single(value: Value) | Listed(values: seq<Value>)

  /** The result of `read_data`: bucket prefix to (key to item). */
  type Sections = Dict<Dict<Item>>

  /** The `elif` chain on `key.startswith(...)`. */
  function MatchBucket(p: SectionPrefixes, key: string): Option<Bucket> {
    if StartsWith(key, p.system) then Some(SystemBucket)
    else if StartsWith(key, p.hotWaterTank) then Some(HotWaterTankBucket)
    else if StartsWith(key, p.heatPump) then Some(HeatPumpBucket)
    else if StartsWith(key, p.heatCircuit) then Some(HeatCircuitBucket)
    else None
  }

  /** The first matching prefix wins: a key lands in bucket `b` iff it
      starts with `b`'s prefix and with none of the prefixes tried before;
      it lands nowhere iff it starts with no prefix at all. */
  lemma MatchBucketFirst(p: SectionPrefixes, key: string, b: Bucket)
    ensures MatchBucket(p, key) == Some(b) <==>
              StartsWith(key, BucketPrefix(p, b))
              && forall c :: Rank(c) < Rank(b) ==> !StartsWith(key, BucketPrefix(p, c))
    ensures MatchBucket(p, key).None? <==> forall c :: !StartsWith(key, BucketPrefix(p, c))
  {
    if MatchBucket(p, key) == Some(b) {
      forall c | Rank(c) < Rank(b) ensures !StartsWith(key, BucketPrefix(p, c)) {
        match c
        case SystemBucket =>
        case HotWaterTankBucket =>
        case HeatPumpBucket =>
        case HeatCircuitBucket =>
      }
    }
    if MatchBucket(p, key).None? {
      forall c ensures !StartsWith(key, BucketPrefix(p, c)) {
        match c
        case SystemBucket =>
        case HotWaterTankBucket =>
        case HeatPumpBucket =>
        case HeatCircuitBucket =>
      }
    }
    assert BucketPrefix(p, SystemBucket) == p.system && BucketPrefix(p, HotWaterTankBucket) == p.hotWaterTank;
    assert BucketPrefix(p, HeatPumpBucket) == p.heatPump && BucketPrefix(p, HeatCircuitBucket) == p.heatCircuit;
  }

  /** `key.lower().replace(f"{prefix}_", "")`. */
  function BucketKey(p: SectionPrefixes, b: Bucket, key: string): string {
    RemoveAll(Lower(key), BucketPrefix(p, b) + "_")
  }

  /** What a bucket stores for a value list: `value[0]` for the system
      bucket, which fails on an empty list, the list itself otherwise. */
  function BucketItem(b: Bucket, vals: seq<Value>): (r: Result<Item, ApiError>)
    ensures r.Err? <==> b == SystemBucket && |vals| == 0
    ensures r.Err? ==> r.error == IndexOutOfRange
    ensures r.Ok? && b == SystemBucket ==> r.value == Single(vals[0])
    ensures b != SystemBucket ==> r == Ok(Listed(vals))
  {
    if b == SystemBucket then
      if |vals| == 0 then Err(IndexOutOfRange) else Ok(Single(vals[0]))
    else Ok(Listed(vals))
  }

  predicate IsBucketPrefix(p: SectionPrefixes, k: string) {
    k == p.system || k == p.hotWaterTank || k == p.heatPump || k == p.heatCircuit
  }

  /** The result `read_data` starts from: the four buckets, empty. */
  function EmptySections(p: SectionPrefixes): (r: Sections)
    ensures forall b :: Get(r, BucketPrefix(p, b)) == Some([])
    ensures forall k :: HasKey(r, k) <==> IsBucketPrefix(p, k)
  {
    var r0: Sections := [];
    var r1 := Put(r0, p.system, []);
    var r2 := Put(r1, p.hotWaterTank, []);
    var r3 := Put(r2, p.heatPump, []);
    var r := Put(r3, p.heatCircuit, []);
    forall k ensures Get(r, k) == if IsBucketPrefix(p, k) then Some([]) else None {
      EmptySectionsAt(p, r0, r1, r2, r3, r, k);
    }
    EmptySectionsGet(p, r);
    r
  }

  lemma EmptySectionsGet(p: SectionPrefixes, r: Sections)
    requires forall k :: Get(r, k) == if IsBucketPrefix(p, k) then Some([]) else None
    ensures forall b :: Get(r, BucketPrefix(p, b)) == Some([])
    ensures forall k :: HasKey(r, k) <==> IsBucketPrefix(p, k)
  {
    forall k ensures HasKey(r, k) <==> IsBucketPrefix(p, k) {
      assert HasKey(r, k) <==> Get(r, k).Some?;
    }
    forall b ensures Get(r, BucketPrefix(p, b)) == Some([]) {
      assert IsBucketPrefix(p, BucketPrefix(p, b));
    }
  }

  lemma EmptySectionsAt(p: SectionPrefixes, r0: Sections, r1: Sections, r2: Sections, r3: Sections, r: Sections,
                        k: string)
    requires r0 == [] && r1 == Put(r0, p.system, []) && r2 == Put(r1, p.hotWaterTank, [])
    requires r3 == Put(r2, p.heatPump, []) && r == Put(r3, p.heatCircuit, [])
    ensures Get(r, k) == if IsBucketPrefix(p, k) then Some([]) else None
  {
    assert Get(r0, k) == None;
    PutEmpty(r0, p.system, k);
    PutEmpty(r1, p.hotWaterTank, k);
    PutEmpty(r2, p.heatPump, k);
    PutEmpty(r3, p.heatCircuit, k);
  }

  lemma PutEmpty(d: Sections, k: string, j: string)
    ensures Get(Put(d, k, []), j) == if j == k then Some([]) else Get(d, j)
  {
  }

  /** One iteration of the loop: the entry is filed under its bucket, or
      dropped when no prefix matches. */
  function FileEntry(p: SectionPrefixes, entry: (string, seq<Value>), data: Sections): Result<Sections, ApiError> {
    match MatchBucket(p, entry.0)
    case None => Ok(data)
    case Some(b) =>
      var item :- BucketItem(b, entry.1);
      var prefix := BucketPrefix(p, b);
      Ok(Put(data, prefix, Put(Get(data, prefix).GetOr([]), BucketKey(p, b, entry.0), item)))
  }

  /** The loop over `response.items()`, from `data` on. */
  function FileAll(p: SectionPrefixes, response: Decoded, data: Sections): Result<Sections, ApiError>
    decreases |response|
  {
    if |response| == 0 then Ok(data)
    else
      var next :- FileEntry(p, response[0], data);
      FileAll(p, response[1..], next)
  }

  /** The bucketing of `read_data`. */
  function ReadData(p: SectionPrefixes, response: Decoded): Result<Sections, ApiError> {
    FileAll(p, response, EmptySections(p))
  }

  /** Filing one more entry continues from the result of the others. */
  lemma {:induction false} FileAllSnoc(p: SectionPrefixes, a: Decoded, e: (string, seq<Value>), data: Sections)
    ensures FileAll(p, a + [e], data)
            == match FileAll(p, a, data)
               case Err(x) => Err(x)
               case Ok(d) => FileEntry(p, e, d)
    decreases |a|
  {
    if |a| == 0 {
      assert a + [e] == [e];
      assert [e][1..] == [];
    } else {
      assert (a + [e])[0] == a[0];
      assert (a + [e])[1..] == a[1..] + [e];
      match FileEntry(p, a[0], data)
      case Err(_) =>
      case Ok(next) => FileAllSnoc(p, a[1..], e, next);
    }
  }

  /** An entry the loop cannot file: a system key with an empty list. */
  predicate Unfileable(p: SectionPrefixes, e: (string, seq<Value>)) {
    MatchBucket(p, e.0) == Some(SystemBucket) && |e.1| == 0
  }

  /** The loop fails, with an `IndexError`, exactly when some entry is
      a system key with no value. */
  lemma {:induction false} FileAllFails(p: SectionPrefixes, response: Decoded, data: Sections)
    ensures FileAll(p, response, data).Err? <==> exists i :: 0 <= i < |response| && Unfileable(p, response[i])
    ensures FileAll(p, response, data).Err? ==> FileAll(p, response, data).error == IndexOutOfRange
    decreases |response|
  {
    if |response| > 0 {
      match FileEntry(p, response[0], data)
      case Err(_) =>
      case Ok(next) =>
        FileAllFails(p, response[1..], next);
        assert forall i :: 1 <= i < |response| ==> response[i] == response[1..][i - 1];
        if exists i :: 0 <= i < |response[1..]| && Unfileable(p, response[1..][i]) {
          var i :| 0 <= i < |response[1..]| && Unfileable(p, response[1..][i]);
          assert Unfileable(p, response[i + 1]);
        }
    }
  }

  /** Filing never adds or removes a bucket once the four are there. */
  lemma {:induction false} FileAllKeepsBuckets(p: SectionPrefixes, response: Decoded, data: Sections)
    requires forall b :: HasKey(data, BucketPrefix(p, b))
    ensures FileAll(p, response, data).Ok? ==> Keys(FileAll(p, response, data).value) == Keys(data)
    decreases |response|
  {
    if |response| > 0 {
      match FileEntry(p, response[0], data)
      case Err(_) =>
      case Ok(next) =>
        assert Keys(next) == Keys(data);
        assert forall b :: HasKey(next, BucketPrefix(p, b)) by {
          forall b ensures HasKey(next, BucketPrefix(p, b)) {
            var k := BucketPrefix(p, b);
            assert Get(data, k).Some?;
            assert Get(next, k).Some?;
          }
        }
        FileAllKeepsBuckets(p, response[1..], next);
    }
  }

  /** The result always holds the four buckets, even when they stay empty,
      and nothing else. */
  lemma ReadDataBuckets(p: SectionPrefixes, response: Decoded)
    ensures ReadData(p, response).Ok? ==>
              Keys(ReadData(p, response).value) == Keys(EmptySections(p))
    ensures ReadData(p, response).Ok? ==>
              forall b :: HasKey(ReadData(p, response).value, BucketPrefix(p, b))
  {
    var e := EmptySections(p);
    FileAllKeepsBuckets(p, response, e);
    if ReadData(p, response).Ok? {
      var r := ReadData(p, response).value;
      forall b ensures HasKey(r, BucketPrefix(p, b)) {
        var k := BucketPrefix(p, b);
        assert HasKey(e, k);
        var i := IndexOf(e, k).value;
        assert Keys(r)[i] == k;
        assert IndexOf(r, k).Some?;
      }
    }
  }

  /** A key no prefix matches is dropped and leaves the result alone. */
  lemma UnmatchedDropped(p: SectionPrefixes, response: Decoded, key: string, vals: seq<Value>)
    requires MatchBucket(p, key).None?
    ensures ReadData(p, response + [(key, vals)]) == ReadData(p, response)
  {
    FileAllSnoc(p, response, (key, vals), EmptySections(p));
  }

  /** What a bucket holds under a key after filing `response` on top of
      `init`: the item of the last entry filed under that key, later entries
      overwriting earlier ones. */
  ghost function Filed(p: SectionPrefixes, response: Decoded, b: Bucket, k: string, init: Option<Item>): Option<Item>
    decreases |response|
  {
    if |response| == 0 then init
    else
      var e := response[|response| - 1];
      if MatchBucket(p, e.0) == Some(b) && BucketKey(p, b, e.0) == k && BucketItem(b, e.1).Ok? then
        Some(BucketItem(b, e.1).value)
      else Filed(p, response[..|response| - 1], b, k, init)
  }

  /** The section view of a bucket. */
  function Section(d: Sections, p: SectionPrefixes, b: Bucket): Dict<Item> {
    Get(d, BucketPrefix(p, b)).GetOr([])
  }

  /** One entry changes only its own bucket, and there only its own key. */
  lemma FileEntryView(p: SectionPrefixes, e: (string, seq<Value>), d: Sections, b: Bucket, k: string)
    requires PrefixesDistinct(p)
    requires FileEntry(p, e, d).Ok?
    ensures Get(Section(FileEntry(p, e, d).value, p, b), k)
            == if MatchBucket(p, e.0) == Some(b) && BucketKey(p, b, e.0) == k then Some(BucketItem(b, e.1).value)
               else Get(Section(d, p, b), k)
  {
    match MatchBucket(p, e.0)
    case None =>
    case Some(c) =>
      if c != b {
        assert BucketPrefix(p, c) != BucketPrefix(p, b);
      }
  }

  /** Per bucket and key, the loop keeps the last entry filed there and
      leaves every other bucket and key as it found them. */
  lemma {:induction false} FileAllView(p: SectionPrefixes, response: Decoded, data: Sections, b: Bucket, k: string)
    requires PrefixesDistinct(p)
    requires FileAll(p, response, data).Ok?
    ensures Get(Section(FileAll(p, response, data).value, p, b), k)
            == Filed(p, response, b, k, Get(Section(data, p, b), k))
    decreases |response|
  {
    if |response| > 0 {
      var init, e := response[..|response| - 1], response[|response| - 1];
      assert response == init + [e];
      FileAllSnoc(p, init, e, data);
      var d := FileAll(p, init, data).value;
      FileAllView(p, init, data, b, k);
      FileEntryView(p, e, d, b, k);
    }
  }

  /** What `read_data` returns under bucket `b` and key `k` is the last
      entry filed there, and nothing where no entry was filed. */
  lemma ReadDataView(p: SectionPrefixes, response: Decoded, b: Bucket, k: string)
    requires PrefixesDistinct(p)
    requires ReadData(p, response).Ok?
    ensures Get(Section(ReadData(p, response).value, p, b), k) == Filed(p, response, b, k, None)
  {
    FileAllView(p, response, EmptySections(p), b, k);
  }

  // ---------------------------------------------------------------------------
  // write_data
  // ---------------------------------------------------------------------------

  /** A request posted to the device. */
  datatype Post = Post(endpoint: string, payload: seq<WriteEntry>)

  /** `write_data`: the request goes unchanged to the write-payload builder
      and is posted to the set action. */
  function WriteData(request: WriteRequest): (r: Post)
    ensures r.endpoint == WriteValuesEndpoint
    ensures |r.payload| == |WritePayload(request)|
    ensures forall c, vals :: (c, vals) in request && !Spec(c).readOnly ==>
              forall w :: w in ValueEntries(c, vals) ==> w in r.payload
  {
    WriteDataCovers(request);
    Post(WriteValuesEndpoint, WritePayload(request))
  }

  /** Every entry of every writable control in a request reaches the
      payload. */
  lemma {:induction false} WriteDataCovers(request: WriteRequest)
    ensures forall c, vals :: (c, vals) in request && !Spec(c).readOnly ==>
              forall w :: w in ValueEntries(c, vals) ==> w in WritePayload(request)
    decreases |request|
  {
    if |request| > 0 {
      WriteDataCovers(request[1..]);
      forall c, vals | (c, vals) in request && !Spec(c).readOnly
        ensures forall w :: w in ValueEntries(c, vals) ==> w in WritePayload(request)
      {
        if (c, vals) != request[0] {
          assert (c, vals) in request[1..];
        }
      }
    }
  }
}
