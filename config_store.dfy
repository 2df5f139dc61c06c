/**
 * The configuration store every template uses: the configuration the page
 * shows, loading it from local storage once, the shallow update, the deep
 * update along a key path, and reset. The configuration is a live object in
 * the heap, so an in-place deep update is seen by every other holder of the
 * containers it walks through — the default configuration among them.
 */
module ConfigStore {
  import opened Options
  import opened Json
  import opened JsHeap
  import opened JsMemory
  import opened PathWalk
  import PortfolioConfig

  /** The local-storage key the configuration is saved under. */
  const StorageKey := "portfolioConfig"

  /** What local storage holds under a key, as `JSON.parse` sees it: a document, the empty text, or text that does not parse. */
  datatype Saved = Stored(doc: Json) | Empty | Malformed

  type Storage = map<string, Saved>

  /** The keys the loader re-reads with `saved.k || defaults.k` after spreading. */
  const FallbackKeys: set<string> := {"skills", "software", "projects", "testimonials"}

  /** Nothing to load: no entry, or the empty text (which is falsy). */
  predicate NothingSaved(st: Storage) {
    StorageKey !in st || st[StorageKey].Empty?
  }

  /** Loading throws: the text does not parse, or it parses to `null` and reading `null.skills` fails. */
  predicate Unreadable(st: Storage) {
    StorageKey in st && (st[StorageKey].Malformed? || st[StorageKey] == Stored(JNull))
  }

  /** Loading succeeds with a parsed document. */
  predicate Readable(st: Storage) {
    StorageKey in st && st[StorageKey].Stored? && st[StorageKey].doc != JNull
  }

  function Lookup<T>(m: map<string, T>, k: string): Option<T> {
    if k in m then Some(m[k]) else None
  }

  /** `a || b` on two properties that may be absent. */
  function OrDoc(a: Option<Json>, b: Option<Json>): Option<Json> {
    if a.Some? && Truthy(a.value) then a else b
  }

  /**
   * The document the loader builds from the defaults `d` and the spread of the
   * saved document `s`: every key the saved document has wins, and the fallback
   * keys take the saved value only when it is truthy.
   */
  function MergeDoc(d: map<string, Json>, s: map<string, Json>): (m: map<string, Json>)
    ensures forall k :: k !in FallbackKeys ==> Lookup(m, k) == if k in s then Some(s[k]) else Lookup(d, k)
    ensures forall k :: k in FallbackKeys ==> Lookup(m, k) == OrDoc(Lookup(s, k), Lookup(d, k))
  {
    map k | k in d.Keys + s.Keys && (k !in FallbackKeys || OrDoc(Lookup(s, k), Lookup(d, k)).Some?) ::
      if k in FallbackKeys then OrDoc(Lookup(s, k), Lookup(d, k)).value
      else if k in s then s[k] else d[k]
  }

  lemma MapsAgree(a: map<string, Json>, b: map<string, Json>)
    requires forall k :: Lookup(a, k) == Lookup(b, k)
    ensures a == b
  {
    forall k | k in a ensures k in b && b[k] == a[k] {
      assert Lookup(a, k) == Lookup(b, k);
    }
    forall k | k in b ensures k in a {
      assert Lookup(a, k) == Lookup(b, k);
    }
    assert a.Keys == b.Keys;
  }

  /** Saving a loaded configuration and loading it again over the same defaults gives the same configuration. */
  lemma MergeIdempotent(d: map<string, Json>, s: map<string, Json>)
    ensures MergeDoc(d, MergeDoc(d, s)) == MergeDoc(d, s)
  {
    var m := MergeDoc(d, s);
    forall k ensures Lookup(MergeDoc(d, m), k) == Lookup(m, k) {
      if k in FallbackKeys {
        assert Lookup(m, k) == OrDoc(Lookup(s, k), Lookup(d, k));
      } else if k !in m {
        assert k !in s;
      }
    }
    MapsAgree(MergeDoc(d, m), m);
  }

  // ----- The same merge on live objects -----

  function Field(fs: map<string, Val>, k: string): Val {
    if k in fs then fs[k] else Undefined
  }

  function OrVal(a: Val, b: Val): Val {
    if ValTruthy(a) then a else b
  }

  /** `{...defaults, ...saved, skills: saved.skills || defaults.skills, …}`: the fallback keys are always present, possibly `undefined`. */
  function MergeFields(d: map<string, Val>, s: map<string, Val>): map<string, Val> {
    map k | k in d.Keys + s.Keys + FallbackKeys ::
      if k in FallbackKeys then OrVal(Field(s, k), Field(d, k))
      else if k in s then s[k] else d[k]
  }

  /** The own properties `{...v}` copies from a live value: an object's fields, the elements of an array or the characters of a string. */
  function SpreadVal(h: Heap, v: Val): map<string, Val> {
    match v
    case Ptr(r) =>
      if r in h then
        match h[r]
        case ObjCell(fs) => fs
        case ArrCell(items) => IndexMap(items)
      else map[]
    case Str(s) => IndexMap(seq(|s|, i requires 0 <= i < |s| => Str([s[i]])))
    case _ => map[]
  }

  predicate AllIn(h: Heap, fs: map<string, Val>) {
    forall k :: k in fs ==> InHeap(h, fs[k])
  }

  predicate NoHoles(fs: map<string, Val>) {
    forall k :: k in fs ==> fs[k] != Undefined
  }

  /** The document an object with properties `fs` serialises to. */
  function SnapFields(h: Heap, ghost rank: Ranks, fs: map<string, Val>): map<string, Json>
    requires Ranked(h, rank) && AllIn(h, fs)
  {
    CellSnap(h, rank, ObjCell(fs)).fields
  }

  lemma SnapFieldsLookup(h: Heap, rank: Ranks, fs: map<string, Val>, k: string)
    requires Ranked(h, rank) && AllIn(h, fs)
    ensures Lookup(SnapFields(h, rank, fs), k) == if k in fs && fs[k] != Undefined then Some(Snap(h, rank, fs[k])) else None
  {
  }

  lemma FieldsInHeap(h: Heap, rank: Ranks, r: Ref)
    requires Ranked(h, rank) && r in h && h[r].ObjCell?
    ensures AllIn(h, h[r].fields)
    ensures Snap(h, rank, Ptr(r)) == JObject(SnapFields(h, rank, h[r].fields))
  {
    SnapPtr(h, rank, r);
  }

  lemma SnapFieldsGrow(h: Heap, rank: Ranks, h': Heap, rank': Ranks, fs: map<string, Val>)
    requires Ranked(h, rank) && Ranked(h', rank') && Grows(h, h') && AllIn(h, fs)
    ensures AllIn(h', fs) && SnapFields(h', rank', fs) == SnapFields(h, rank, fs)
  {
    CellSnapGrow(h, rank, h', rank', ObjCell(fs));
  }

  /** Merging live objects and then serialising gives the document-level merge of the serialised parts. */
  lemma MergeSnap(h: Heap, rank: Ranks, d: map<string, Val>, s: map<string, Val>)
    requires Ranked(h, rank) && AllIn(h, d) && AllIn(h, s) && NoHoles(s)
    ensures AllIn(h, MergeFields(d, s))
    ensures SnapFields(h, rank, MergeFields(d, s)) == MergeDoc(SnapFields(h, rank, d), SnapFields(h, rank, s))
  {
    var m := MergeFields(d, s);
    var sd, ss := SnapFields(h, rank, d), SnapFields(h, rank, s);
    forall k ensures Lookup(SnapFields(h, rank, m), k) == Lookup(MergeDoc(sd, ss), k) {
      SnapFieldsLookup(h, rank, m, k);
      SnapFieldsLookup(h, rank, d, k);
      SnapFieldsLookup(h, rank, s, k);
      if k in FallbackKeys && k in s {
        TruthySnap(h, rank, s[k]);
      }
    }
    MapsAgree(SnapFields(h, rank, m), MergeDoc(sd, ss));
  }

  lemma SnapFieldsPut(h: Heap, rank: Ranks, fs: map<string, Val>, k: string, x: Val)
    requires Ranked(h, rank) && AllIn(h, fs) && InHeap(h, x) && x != Undefined
    ensures AllIn(h, fs[k := x])
    ensures SnapFields(h, rank, fs[k := x]) == SnapFields(h, rank, fs)[k := Snap(h, rank, x)]
  {
    var fs' := fs[k := x];
    var a, b := SnapFields(h, rank, fs'), SnapFields(h, rank, fs)[k := Snap(h, rank, x)];
    forall q ensures Lookup(a, q) == Lookup(b, q) {
      SnapFieldsLookup(h, rank, fs', q);
      SnapFieldsLookup(h, rank, fs, q);
    }
    MapsAgree(a, b);
  }

  /** Spreading the elements of a live array-like value matches spreading its serialised elements. */
  lemma {:induction false} IndexMapSnap(h: Heap, rank: Ranks, xs: seq<Val>, ys: seq<Json>)
    requires Ranked(h, rank) && |xs| == |ys|
    requires forall i :: 0 <= i < |xs| ==> InHeap(h, xs[i]) && xs[i] != Undefined && Snap(h, rank, xs[i]) == ys[i]
    ensures AllIn(h, IndexMap(xs)) && NoHoles(IndexMap(xs))
    ensures SnapFields(h, rank, IndexMap(xs)) == IndexMap(ys)
    decreases |xs|
  {
    if xs != [] {
      var n := |xs| - 1;
      IndexMapSnap(h, rank, xs[..n], ys[..n]);
      assert IndexMap(xs) == IndexMap(xs[..n])[Decimal(n) := xs[n]];
      assert IndexMap(ys) == IndexMap(ys[..n])[Decimal(n) := ys[n]];
      SnapFieldsPut(h, rank, IndexMap(xs[..n]), Decimal(n), xs[n]);
    }
  }

  /** Spreading a freshly parsed value and serialising matches spreading the document it was parsed from. */
  lemma SpreadSnap(h: Heap, rank: Ranks, v: Val)
    requires Ranked(h, rank) && InHeap(h, v) && v != Undefined
    requires v.Ptr? ==> Undefined !in Kids(h[v.ref])
    ensures AllIn(h, SpreadVal(h, v)) && NoHoles(SpreadVal(h, v))
    ensures SnapFields(h, rank, SpreadVal(h, v)) == Spread(Snap(h, rank, v))
  {
    match v
    case Ptr(r) =>
      if h[r].ObjCell? {
        SpreadSnapObject(h, rank, r);
      } else {
        SpreadSnapArray(h, rank, r);
      }
    case Str(s) =>
      SpreadSnapString(h, rank, s);
    case _ =>
  }

  lemma SpreadSnapString(h: Heap, rank: Ranks, s: string)
    requires Ranked(h, rank)
    ensures AllIn(h, SpreadVal(h, Str(s))) && NoHoles(SpreadVal(h, Str(s)))
    ensures SnapFields(h, rank, SpreadVal(h, Str(s))) == Spread(Snap(h, rank, Str(s)))
  {
    var xs := seq(|s|, i requires 0 <= i < |s| => Str([s[i]]));
    IndexMapSnap(h, rank, xs, seq(|s|, i requires 0 <= i < |s| => JString([s[i]])));
  }

  lemma SpreadSnapObject(h: Heap, rank: Ranks, r: Ref)
    requires Ranked(h, rank) && r in h && h[r].ObjCell? && Undefined !in Kids(h[r])
    ensures AllIn(h, SpreadVal(h, Ptr(r))) && NoHoles(SpreadVal(h, Ptr(r)))
    ensures SnapFields(h, rank, SpreadVal(h, Ptr(r))) == Spread(Snap(h, rank, Ptr(r)))
  {
    SnapPtr(h, rank, r);
  }

  lemma SpreadSnapArray(h: Heap, rank: Ranks, r: Ref)
    requires Ranked(h, rank) && r in h && h[r].ArrCell? && Undefined !in Kids(h[r])
    ensures AllIn(h, SpreadVal(h, Ptr(r))) && NoHoles(SpreadVal(h, Ptr(r)))
    ensures SnapFields(h, rank, SpreadVal(h, Ptr(r))) == Spread(Snap(h, rank, Ptr(r)))
  {
    SnapPtr(h, rank, r);
    IndexMapSnap(h, rank, h[r].items, Snap(h, rank, Ptr(r)).items);
  }

  lemma SnapIsObject(h: Heap, rank: Ranks, v: Val)
    requires Ranked(h, rank) && InHeap(h, v) && Snap(h, rank, v).JObject?
    ensures v.Ptr? && h[v.ref].ObjCell?
  {
  }

  // ----- Tree-shaped property maps -----

  /** The properties `fs` are trees, and no two of them share a cell. */
  ghost predicate Forest(h: Heap, rank: Ranks, fs: map<string, Val>)
    requires Ranked(h, rank) && AllIn(h, fs)
  {
    (forall k :: k in fs ==> Tree(h, rank, fs[k])) &&
    forall k1, k2 :: k1 in fs && k2 in fs && k1 != k2 ==> Apart(h, rank, fs[k1], fs[k2])
  }

  /** The properties of a tree-shaped object form a forest. */
  lemma ObjectForest(h: Heap, rank: Ranks, r: Ref)
    requires Ranked(h, rank) && r in h && h[r].ObjCell? && Tree(h, rank, Ptr(r))
    ensures AllIn(h, h[r].fields) && Forest(h, rank, h[r].fields)
  {
    var fs := h[r].fields;
    SnapPtr(h, rank, r);
    forall k | k in fs ensures InHeap(h, fs[k]) && Tree(h, rank, fs[k]) {
      assert fs[k] in Kids(h[r]);
    }
    forall k1, k2 | k1 in fs && k2 in fs && k1 != k2 ensures Apart(h, rank, fs[k1], fs[k2]) {
      assert At(h[r], Name(k1)) == Some(fs[k1]) && At(h[r], Name(k2)) == Some(fs[k2]);
    }
  }

  /** Setting a property to a value that holds no reference keeps a forest a forest. */
  lemma ForestPut(h: Heap, rank: Ranks, fs: map<string, Val>, k: string, x: Val)
    requires Ranked(h, rank) && AllIn(h, fs) && Forest(h, rank, fs) && !x.Ptr?
    ensures AllIn(h, fs[k := x]) && Forest(h, rank, fs[k := x])
  {
    var fs' := fs[k := x];
    forall k1, k2 | k1 in fs' && k2 in fs' && k1 != k2 ensures Apart(h, rank, fs'[k1], fs'[k2]) {
      if k1 != k && k2 != k {
        assert fs'[k1] == fs[k1] && fs'[k2] == fs[k2];
      }
    }
  }

  /** What `{...v}` copies from a tree-shaped value is a forest whose members reach only what `v` reaches. */
  lemma SpreadForest(h: Heap, rank: Ranks, v: Val)
    requires Ranked(h, rank) && InHeap(h, v) && Tree(h, rank, v)
    ensures AllIn(h, SpreadVal(h, v)) && Forest(h, rank, SpreadVal(h, v))
    ensures forall k, t: Ref :: k in SpreadVal(h, v) && Reaches(h, rank, SpreadVal(h, v)[k], t) ==> Reaches(h, rank, v, t)
  {
    var fs := SpreadVal(h, v);
    if v.Ptr? {
      var r := v.ref;
      SnapPtr(h, rank, r);
      if h[r].ObjCell? {
        ObjectForest(h, rank, r);
        forall k | k in fs ensures fs[k] in Kids(h[r]) {
          assert fs[k] in h[r].fields.Values;
        }
      } else {
        SpreadArrayForest(h, rank, r);
      }
    } else if v.Str? {
      SpreadStringForest(h, rank, v.s);
    }
  }

  /** The characters a string spreads into hold no reference. */
  lemma SpreadStringForest(h: Heap, rank: Ranks, s: string)
    requires Ranked(h, rank)
    ensures AllIn(h, SpreadVal(h, Str(s))) && forall k :: k in SpreadVal(h, Str(s)) ==> !SpreadVal(h, Str(s))[k].Ptr?
  {
    var fs := SpreadVal(h, Str(s));
    var xs := seq(|s|, i requires 0 <= i < |s| => Str([s[i]]));
    forall k | k in fs ensures !fs[k].Ptr? {
      var i := IndexMapAt(xs, k);
    }
  }

  lemma SpreadArrayForest(h: Heap, rank: Ranks, r: Ref)
    requires Ranked(h, rank) && r in h && h[r].ArrCell? && Tree(h, rank, Ptr(r))
    ensures AllIn(h, SpreadVal(h, Ptr(r))) && Forest(h, rank, SpreadVal(h, Ptr(r)))
    ensures forall k, t: Ref :: k in SpreadVal(h, Ptr(r)) && Reaches(h, rank, SpreadVal(h, Ptr(r))[k], t) ==> Reaches(h, rank, Ptr(r), t)
  {
    var items := h[r].items;
    var fs := IndexMap(items);
    SnapPtr(h, rank, r);
    forall k | k in fs ensures fs[k] in Kids(h[r]) {
      var i := IndexMapAt(items, k);
    }
    forall k1, k2 | k1 in fs && k2 in fs && k1 != k2 ensures Apart(h, rank, fs[k1], fs[k2]) {
      var i1 := IndexMapAt(items, k1);
      var i2 := IndexMapAt(items, k2);
      assert At(h[r], Index(i1)) == Some(fs[k1]) && At(h[r], Index(i2)) == Some(fs[k2]);
    }
  }

  /** Each merged property is the default's or the saved one's. */
  lemma MergeFrom(d: map<string, Val>, s: map<string, Val>, k: string)
    requires k in MergeFields(d, s)
    ensures MergeFields(d, s)[k] == Field(d, k) || MergeFields(d, s)[k] == Field(s, k)
  {
  }

  /**
   * Merging a forest of old cells with a forest of cells allocated from `n0` on
   * gives a forest: the two sides share nothing.
   */
  lemma MergedForest(h: Heap, rank: Ranks, d: map<string, Val>, s: map<string, Val>, n0: nat)
    requires Ranked(h, rank) && AllIn(h, d) && AllIn(h, s) && Forest(h, rank, d) && Forest(h, rank, s)
    requires forall k, t: Ref :: k in d && Reaches(h, rank, d[k], t) ==> t < n0
    requires forall k, t: Ref :: k in s && Reaches(h, rank, s[k], t) ==> n0 <= t
    ensures AllIn(h, MergeFields(d, s)) && Forest(h, rank, MergeFields(d, s))
  {
    var m := MergeFields(d, s);
    forall k | k in m ensures InHeap(h, m[k]) && Tree(h, rank, m[k]) {
      MergeFrom(d, s, k);
    }
    forall k1, k2 | k1 in m && k2 in m && k1 != k2 ensures Apart(h, rank, m[k1], m[k2]) {
      MergeFrom(d, s, k1);
      MergeFrom(d, s, k2);
    }
  }

  /** A new object whose properties form a forest is a tree. */
  lemma ForestTree(h: Heap, rank: Ranks, h': Heap, rank': Ranks, r: Ref, fs: map<string, Val>)
    requires Ranked(h, rank) && Ranked(h', rank') && Grows(h, h') && r in h' && h'[r] == ObjCell(fs)
    requires AllIn(h, fs) && Forest(h, rank, fs)
    ensures Tree(h', rank', Ptr(r))
  {
    SnapPtr(h', rank', r);
    forall x | x in Kids(h'[r]) ensures Tree(h', rank', x) {
      var k :| k in fs && fs[k] == x;
      TreeGrow(h, rank, h', rank', x);
    }
    forall k1, k2 | k1 != k2 && At(h'[r], k1).Some? && At(h'[r], k2).Some?
      ensures Apart(h', rank', At(h'[r], k1).value, At(h'[r], k2).value)
    {
      ApartGrow(h, rank, h', rank', At(h'[r], k1).value, At(h'[r], k2).value);
    }
  }

  /**
   * The object `Load` builds is a tree when the defaults are: the saved part is
   * freshly parsed, so it shares nothing with the default configuration.
   */
  lemma LoadedTree(h0: Heap, r0: Ranks, h1: Heap, r1: Ranks, h2: Heap, r2: Ranks, d: Ref, parsed: Val, r: Ref, n0: nat)
    requires Ranked(h0, r0) && Ranked(h1, r1) && Ranked(h2, r2) && Grows(h0, h1) && Grows(h1, h2)
    requires forall q :: q in h0 ==> q < n0
    requires d in h0 && h0[d].ObjCell? && Tree(h0, r0, Ptr(d))
    requires InHeap(h1, parsed) && Tree(h1, r1, parsed) && Fresh(h1, r1, parsed, n0)
    requires r in h2 && h2[r] == ObjCell(MergeFields(h1[d].fields, SpreadVal(h1, parsed)))
    ensures Tree(h2, r2, Ptr(r))
  {
    var dfs, spread := h1[d].fields, SpreadVal(h1, parsed);
    TreeGrow(h0, r0, h1, r1, Ptr(d));
    ObjectForest(h1, r1, d);
    SpreadForest(h1, r1, parsed);
    SnapPtr(h0, r0, d);
    forall k, t: Ref | k in dfs && Reaches(h1, r1, dfs[k], t) ensures t < n0 {
      assert dfs[k] in Kids(h0[d]);
      SnapGrow(h0, r0, h1, r1, dfs[k]);
      ReachesBelow(h0, r0, dfs[k], t);
    }
    forall k, t: Ref | k in spread && Reaches(h1, r1, spread[k], t) ensures n0 <= t {
      assert Reaches(h1, r1, parsed, t);
    }
    MergedForest(h1, r1, dfs, spread, n0);
    ForestTree(h1, r1, h2, r2, r, MergeFields(dfs, spread));
  }

  // ----- The store -----

  class Store {
    const mem: Memory
    /** The object `defaultConfig` names, fixed for the life of the page. */
    const defaults: Ref
    /** The object the `config` state currently holds. */
    var config: Ref
    var storage: Storage

    ghost predicate Valid()
      reads this`config, mem
    {
      mem.Valid() &&
      defaults in mem.heap && mem.heap[defaults].ObjCell? &&
      config in mem.heap && mem.heap[config].ObjCell?
    }

    /** The configuration as the page reads it. */
    function Document(): Json
      reads this`config, mem
      requires Valid()
    {
      mem.Snapshot(Ptr(config))
    }

    /** The default configuration as it currently reads. */
    function DefaultsDocument(): Json
      reads this`config, mem
      requires Valid()
    {
      mem.Snapshot(Ptr(defaults))
    }

    /** The top-level properties of the configuration, serialised. */
    function Fields(): map<string, Json>
      reads this`config, mem
      requires Valid()
    {
      FieldsInHeap(mem.heap, mem.rank, config);
      SnapFields(mem.heap, mem.rank, mem.heap[config].fields)
    }

    function DefaultFields(): map<string, Json>
      reads this`config, mem
      requires Valid()
    {
      FieldsInHeap(mem.heap, mem.rank, defaults);
      SnapFields(mem.heap, mem.rank, mem.heap[defaults].fields)
    }

    /** The state starts out as the default configuration. */
    constructor (mem: Memory, defaults: Ref, storage: Storage)
      requires mem.Valid() && defaults in mem.heap && mem.heap[defaults].ObjCell?
      ensures Valid() && this.mem == mem && this.defaults == defaults
      ensures config == defaults && this.storage == storage
    {
      this.mem := mem;
      this.defaults := defaults;
      config := defaults;
      this.storage := storage;
    }

    /**
     * The mount-time load: nothing happens when nothing is saved, the defaults
     * come back when loading throws, and otherwise the state becomes a new object
     * merging the defaults with the saved document.
     */
    method Load()
      requires Valid()
      modifies this, mem
      ensures Valid() && storage == old(storage) && Grows(old(mem.heap), mem.heap)
      ensures NothingSaved(storage) ==> config == old(config)
      ensures Unreadable(storage) ==> config == defaults
      ensures Readable(storage) ==> config !in old(mem.heap)
      ensures Readable(storage) ==> Fields() == MergeDoc(old(DefaultFields()), Spread(storage[StorageKey].doc))
      ensures Readable(storage) ==> forall k :: k in old(mem.heap[defaults].fields) && k !in FallbackKeys && k !in Spread(storage[StorageKey].doc) ==>
        k in mem.heap[config].fields && mem.heap[config].fields[k] == old(mem.heap[defaults].fields[k])
      ensures DefaultsDocument() == old(DefaultsDocument())
      ensures old(DefaultsShaped()) ==> DefaultsShaped()
      ensures old(DefaultsShaped()) && (old(Shaped()) || !NothingSaved(storage)) ==> Shaped()
    {
      ghost var h0, r0 := mem.heap, mem.rank;
      if StorageKey !in storage {
        return;
      }
      match storage[StorageKey] {
      case Empty =>
      case Malformed =>
        config := defaults;
      case Stored(doc) =>
        if doc == JNull {
          config := defaults;
        } else {
          LoadSaved(doc);
        }
      }
      SnapGrow(h0, r0, mem.heap, mem.rank, Ptr(defaults));
      if Tree(h0, r0, Ptr(defaults)) {
        TreeGrow(h0, r0, mem.heap, mem.rank, Ptr(defaults));
      }
    }

    /** The branch of `Load` that found a saved document: a new object merging the defaults with the parsed document. */
    method LoadSaved(doc: Json)
      requires Valid()
      modifies this`config, mem
      ensures Valid() && Grows(old(mem.heap), mem.heap) && config !in old(mem.heap)
      ensures Fields() == MergeDoc(old(DefaultFields()), Spread(doc))
      ensures forall k :: k in old(mem.heap[defaults].fields) && k !in FallbackKeys && k !in Spread(doc) ==>
        k in mem.heap[config].fields && mem.heap[config].fields[k] == old(mem.heap[defaults].fields[k])
      ensures old(DefaultsShaped()) ==> Shaped()
    {
      ghost var h0, r0, n0 := mem.heap, mem.rank, mem.next;
      var parsed := mem.AllocJson(doc);
      ghost var h1, r1 := mem.heap, mem.rank;
      var spread := SpreadVal(mem.heap, parsed);
      SpreadSnap(h1, r1, parsed);
      FieldsInHeap(h0, r0, defaults);
      SnapFieldsGrow(h0, r0, h1, r1, mem.heap[defaults].fields);
      var merged := MergeFields(mem.heap[defaults].fields, spread);
      MergeSnap(h1, r1, mem.heap[defaults].fields, spread);
      var r := mem.Alloc(ObjCell(merged));
      config := r;
      if Tree(h0, r0, Ptr(defaults)) {
        LoadedTree(h0, r0, h1, r1, mem.heap, mem.rank, defaults, parsed, r, n0);
      }
      SnapFieldsGrow(h1, r1, mem.heap, mem.rank, merged);
      forall k | k in spread ensures k in Spread(doc) {
        SnapFieldsLookup(h1, r1, spread, k);
      }
    }

    /** `updateConfig(partial)`: a new object with the current properties overridden by `partial`, then saved. */
    method UpdateConfig(partial: map<string, Val>)
      requires Valid() && AllIn(mem.heap, partial)
      modifies this, mem
      ensures Valid() && Grows(old(mem.heap), mem.heap) && config !in old(mem.heap)
      ensures mem.heap[config] == ObjCell(old(mem.heap[config].fields) + partial)
      ensures forall k :: k in partial ==> Lookup(Fields(), k) == if partial[k] == Undefined then None else Some(old(mem.Snapshot(partial[k])))
      ensures forall k :: k !in partial ==> Lookup(Fields(), k) == Lookup(old(Fields()), k)
      ensures storage == old(storage)[StorageKey := Stored(Document())]
      ensures DefaultsDocument() == old(DefaultsDocument())
    {
      ghost var h0, r0 := mem.heap, mem.rank;
      FieldsInHeap(h0, r0, config);
      var fs := mem.heap[config].fields + partial;
      assert AllIn(h0, fs);
      var r := mem.Alloc(ObjCell(fs));
      ghost var old0 := mem.heap[config].fields;
      config := r;
      SnapFieldsGrow(h0, r0, mem.heap, mem.rank, fs);
      SnapFieldsGrow(h0, r0, mem.heap, mem.rank, old0);
      forall k ensures Lookup(Fields(), k) ==
        if k in partial then (if partial[k] == Undefined then None else Some(Snap(h0, r0, partial[k])))
        else Lookup(SnapFields(h0, r0, old0), k)
      {
        SnapFieldsLookup(h0, r0, fs, k);
        SnapFieldsLookup(h0, r0, old0, k);
      }
      storage := storage[StorageKey := Stored(mem.Snapshot(Ptr(config)))];
      SnapGrow(h0, r0, mem.heap, mem.rank, Ptr(defaults));
    }

    /**
     * `v` may be assigned along `path`: it does not already contain the container
     * it is assigned into (the assignment would make the configuration cyclic,
     * which `JSON.stringify` rejects).
     */
    ghost predicate KeepsAcyclic(path: seq<Key>, v: Val)
      reads this`config, mem
      requires Valid() && InHeap(mem.heap, v)
    {
      |path| > 1 && WalkOk(mem.heap, Ptr(config), Written(path)) ==>
        !Reaches(mem.heap, mem.rank, v, Container(mem.heap, Ptr(config), Written(path)))
    }

    /** Nothing but `path` itself leads from the configuration to the container a deep update assigns into. */
    ghost predicate Alone(path: seq<Key>)
      reads this`config, mem
      requires Valid()
    {
      WalkOk(mem.heap, Ptr(config), Written(path)) &&
      (|path| <= 1 || OnlyPath(mem.heap, mem.rank, Ptr(config), path[..|path| - 1], Container(mem.heap, Ptr(config), Written(path))))
    }

    /** The configuration is a tree: no container in it is reached along two routes, as after loading or parsing. */
    ghost predicate Shaped()
      reads this`config, mem
      requires Valid()
    {
      Tree(mem.heap, mem.rank, Ptr(config))
    }

    /** The default configuration is a tree. */
    ghost predicate DefaultsShaped()
      reads this`config, mem
      requires Valid()
    {
      Tree(mem.heap, mem.rank, Ptr(defaults))
    }

    /** On a tree-shaped configuration, every path whose walk succeeds is the only route to its container. */
    lemma ShapedAlone(path: seq<Key>)
      requires Valid() && Shaped()
      ensures Alone(path) <==> WalkOk(mem.heap, Ptr(config), Written(path))
    {
      var w := Written(path);
      if WalkOk(mem.heap, Ptr(config), w) && |path| > 1 {
        TreeOnlyPath(mem.heap, mem.rank, Ptr(config), path[..|path| - 1], Container(mem.heap, Ptr(config), w));
      }
    }

    /**
     * `updateField(path, value)` as written: a shallow copy of the configuration,
     * a cursor walked down all but the last key, an in-place assignment there,
     * then the copy is stored and saved. A walk that reads through a
     * non-container throws and changes nothing the page can see. A path of one key
     * touches only the copy; a longer path assigns into a container the old
     * configuration shares, so the old configuration reads as the new one.
     */
    method UpdateField(path: seq<Key>, value: Val) returns (thrown: bool)
      requires Valid() && InHeap(mem.heap, value) && KeepsAcyclic(path, value)
      modifies this, mem
      ensures Valid()
      ensures thrown == Set(old(Document()), Written(path), old(mem.Snapshot(value))).None?
      ensures thrown ==> config == old(config) && storage == old(storage) && Grows(old(mem.heap), mem.heap)
      ensures !thrown ==> config !in old(mem.heap) && mem.heap == Assigned(old(mem.heap), old(config), config, path, value)
      ensures !thrown ==> Resolve(mem.heap, Ptr(config), Written(path)) == Some(value)
      ensures !thrown ==> storage == old(storage)[StorageKey := Stored(Document())]
      ensures !thrown ==> mem.Snapshot(Ptr(old(config))) == if |path| <= 1 then old(Document()) else Document()
      ensures !thrown && value != Undefined && (old(Alone(path)) || old(Shaped())) ==>
        Set(old(Document()), Written(path), old(mem.Snapshot(value))) == Some(Document())
      ensures !value.Ptr? && old(Shaped()) ==> Shaped()
      ensures !value.Ptr? && old(DefaultsShaped()) ==> DefaultsShaped()
    {
      ghost var shallow := |path| <= 1 || Tree(mem.heap, mem.rank, Ptr(config)) ||
        (WalkOk(mem.heap, Ptr(config), Written(path)) &&
         OnlyPath(mem.heap, mem.rank, Ptr(config), path[..|path| - 1], Container(mem.heap, Ptr(config), Written(path))));
      assert Alone(path) || Shaped() ==> shallow;
      var t;
      thrown, t := UpdateInPlace(mem, config, path, value, defaults);
      if thrown {
        return;
      }
      Commit(t);
    }

    /** `setConfig(copy)` and saving it: the copy becomes the state and its document is written to storage. */
    method Commit(t: Ref)
      requires mem.Valid() && t in mem.heap && mem.heap[t].ObjCell? && defaults in mem.heap && mem.heap[defaults].ObjCell?
      modifies this
      ensures Valid() && config == t && storage == old(storage)[StorageKey := Stored(Document())]
    {
      config := t;
      storage := storage[StorageKey := Stored(mem.Snapshot(Ptr(config)))];
    }

    /**
     * The corrected deep update: every container on the path is copied, so no
     * object that existed before changes, the default configuration included,
     * and the new configuration is exactly `Set` of the old one.
     */
    method UpdateFieldCopying(path: seq<Key>, value: Val) returns (thrown: bool)
      requires Valid() && InHeap(mem.heap, value)
      modifies this, mem
      ensures Valid() && Grows(old(mem.heap), mem.heap)
      ensures thrown == Set(old(Document()), Written(path), old(mem.Snapshot(value))).None?
      ensures thrown ==> config == old(config) && storage == old(storage)
      ensures !thrown ==> Resolve(mem.heap, Ptr(config), Written(path)) == Some(value)
      ensures !thrown && value != Undefined ==>
        Set(old(Document()), Written(path), old(mem.Snapshot(value))) == Some(Document())
      ensures !thrown ==> storage == old(storage)[StorageKey := Stored(Document())]
      ensures DefaultsDocument() == old(DefaultsDocument())
    {
      ghost var h0, r0 := mem.heap, mem.rank;
      var failed, root := CopyWrite(mem, Ptr(config), Written(path), value);
      SnapGrow(h0, r0, mem.heap, mem.rank, Ptr(defaults));
      if failed {
        return true;
      }
      config := root.ref;
      storage := storage[StorageKey := Stored(mem.Snapshot(Ptr(config)))];
      thrown := false;
    }

    /** `resetConfig()`: the state is the default object again and the saved entry is removed. */
    method ResetConfig()
      requires Valid()
      modifies this
      ensures Valid() && config == defaults && storage == old(storage) - {StorageKey}
      ensures Document() == DefaultsDocument()
      ensures old(DefaultsShaped()) ==> Shaped()
    {
      config := defaults;
      storage := storage - {StorageKey};
    }
  }

  /** `CopyAndAssign` together with what it leaves, read as documents. */
  method UpdateInPlace(mem: Memory, c0: Ref, path: seq<Key>, value: Val, ghost d: Ref) returns (thrown: bool, t: Ref)
    requires mem.Valid() && c0 in mem.heap && InHeap(mem.heap, value) && d in mem.heap
    requires |path| > 1 && WalkOk(mem.heap, Ptr(c0), Written(path)) ==>
      !Reaches(mem.heap, mem.rank, value, Container(mem.heap, Ptr(c0), Written(path)))
    modifies mem
    ensures mem.Valid()
    ensures thrown == Set(old(mem.Snapshot(Ptr(c0))), Written(path), old(mem.Snapshot(value))).None?
    ensures thrown ==> Grows(old(mem.heap), mem.heap)
    ensures !thrown ==> t !in old(mem.heap) && mem.heap == Assigned(old(mem.heap), c0, t, path, value)
    ensures !thrown ==> t in mem.heap && mem.heap[t].ObjCell? == old(mem.heap)[c0].ObjCell?
    ensures !thrown ==> Resolve(mem.heap, Ptr(t), Written(path)) == Some(value)
    ensures !thrown ==> mem.Snapshot(Ptr(c0)) == if |path| <= 1 then old(mem.Snapshot(Ptr(c0))) else mem.Snapshot(Ptr(t))
    ensures (!thrown && value != Undefined &&
        old(|path| <= 1 || Tree(mem.heap, mem.rank, Ptr(c0)) || OnlyPath(mem.heap, mem.rank, Ptr(c0), path[..|path| - 1], Container(mem.heap, Ptr(c0), Written(path))))) ==>
      Set(old(mem.Snapshot(Ptr(c0))), Written(path), old(mem.Snapshot(value))) == Some(mem.Snapshot(Ptr(t)))
    ensures !value.Ptr? && old(Tree(mem.heap, mem.rank, Ptr(c0))) ==>
      InHeap(mem.heap, Ptr(if thrown then c0 else t)) && Tree(mem.heap, mem.rank, Ptr(if thrown then c0 else t))
    ensures !value.Ptr? && old(Tree(mem.heap, mem.rank, Ptr(d))) ==> InHeap(mem.heap, Ptr(d)) && Tree(mem.heap, mem.rank, Ptr(d))
  {
    ghost var h0, r0, b0 := mem.heap, mem.rank, mem.bound;
    WalkOkIffSet(h0, r0, Ptr(c0), Written(path), Snap(h0, r0, value));
    if |path| > 1 && WalkOk(h0, Ptr(c0), Written(path)) && Tree(h0, r0, Ptr(c0)) {
      TreeOnlyPath(h0, r0, Ptr(c0), path[..|path| - 1], Container(h0, Ptr(c0), Written(path)));
    }
    thrown, t := CopyAndAssign(mem, c0, path, value);
    if !thrown {
      InPlaceOutcome(h0, r0, mem.heap, mem.rank, c0, t, path, value, b0);
    }
    if !value.Ptr? {
      UpdateTrees(h0, r0, mem.heap, mem.rank, c0, t, path, value, b0, thrown, d);
    }
  }

  /**
   * `{...c0}`, a cursor walked from the copy `t` down all but the last key, and
   * `current[lastKey] = value` there; whoever holds the copy is not yet told.
   */
  method CopyAndAssign(mem: Memory, c0: Ref, path: seq<Key>, value: Val) returns (thrown: bool, t: Ref)
    requires mem.Valid() && c0 in mem.heap && InHeap(mem.heap, value)
    requires |path| > 1 && WalkOk(mem.heap, Ptr(c0), Written(path)) ==>
      !Reaches(mem.heap, mem.rank, value, Container(mem.heap, Ptr(c0), Written(path)))
    modifies mem
    ensures mem.Valid()
    ensures thrown == !WalkOk(old(mem.heap), Ptr(c0), Written(path))
    ensures thrown ==> Grows(old(mem.heap), mem.heap)
    ensures !thrown ==> t !in old(mem.heap) && mem.heap == Assigned(old(mem.heap), c0, t, path, value)
  {
    ghost var h0, r0 := mem.heap, mem.rank;
    var w := Written(path);
    t := mem.Alloc(mem.heap[c0]);
    ghost var h1 := mem.heap;
    var found := Walk(mem, Ptr(t), w[..|w| - 1]);
    CopiedTop(h0, r0, h1, c0, t, w);
    if found.None? || !Writable(mem.heap, found.value, w[|w| - 1]) {
      return true, t;
    }
    AssignInPlace(mem, t, found.value.ref, path, value, h0, r0, c0);
    thrown := false;
  }

  /** `current[lastKey] = value` into container `c`, which the walk from the copy `t` of `c0` reached. */
  method AssignInPlace(mem: Memory, t: Ref, c: Ref, path: seq<Key>, value: Val, ghost h0: Heap, ghost r0: Ranks, ghost c0: Ref)
    requires mem.Valid() && Ranked(h0, r0)
    requires c0 in h0 && t !in h0 && mem.heap == h0[t := h0[c0]] && InHeap(h0, value)
    requires WalkOk(h0, Ptr(c0), Written(path))
    requires c == if |path| <= 1 then t else Container(h0, Ptr(c0), Written(path))
    requires |path| > 1 ==> !Reaches(h0, r0, value, c)
    modifies mem
    ensures mem.Valid() && mem.heap == Assigned(h0, c0, t, path, value)
  {
    ghost var h1, r1 := mem.heap, mem.rank;
    var w := Written(path);
    var last := w[|w| - 1];
    assert w[..0] == [];
    if |path| > 1 {
      ResolveBelow(h0, r0, Ptr(c0), w[..|w| - 1]);
    }
    SnapGrow(h0, r0, h1, r1, value);
    if |path| <= 1 && Reaches(h1, r1, value, c) {
      ReachesBelow(h0, r0, value, c);
    }
    mem.Write(c, last, value);
  }

  /** The path `updateField` assigns along; an empty path reads `path[-1]`, which is `undefined`, so it assigns the key "undefined". */
  function Written(path: seq<Key>): (w: seq<Key>)
    ensures |w| > 0 && (path != [] ==> w == path)
  {
    if path == [] then [Name("undefined")] else path
  }

  /** The shallow copy `{...config}` walks like the configuration itself, and reaches the same container. */
  lemma CopiedTop(h0: Heap, r0: Ranks, h1: Heap, c0: Ref, t: Ref, w: seq<Key>)
    requires Ranked(h0, r0) && c0 in h0 && t !in h0 && h1 == h0[t := h0[c0]] && |w| > 0
    ensures WalkOk(h1, Ptr(t), w) <==> WalkOk(h0, Ptr(c0), w)
    ensures WalkOk(h0, Ptr(c0), w) ==>
      Container(h1, Ptr(t), w) == if |w| == 1 then t else Container(h0, Ptr(c0), w)
  {
    var prefix := w[..|w| - 1];
    if prefix != [] {
      ResolveSameCell(h1, t, c0, prefix);
      ResolveGrow(h0, r0, h1, Ptr(c0), prefix);
      if Resolve(h0, Ptr(c0), prefix).Some? {
        ResolveBelow(h0, r0, Ptr(c0), prefix);
      }
    }
  }

  /**
   * The heap after `updateField` assigned along `path` from configuration `c0`:
   * `t` is the shallow copy, and the assignment lands in the copy for a path of
   * one key and in the shared container for a longer one.
   */
  function Assigned(h: Heap, c0: Ref, t: Ref, path: seq<Key>, value: Val): Heap {
    var w := Written(path);
    assert w[..0] == [];
    if !(c0 in h && WalkOk(h, Ptr(c0), w)) then h
    else if |w| == 1 then h[t := WriteCell(h[c0], w[0], value)]
    else
      var c := Container(h, Ptr(c0), w);
      h[t := h[c0]][c := WriteCell(h[c], w[|w| - 1], value)]
  }

  /** What the in-place update leaves: the path holds `value`, and how the old configuration and the copy read. */
  lemma InPlaceOutcome(h0: Heap, r0: Ranks, h2: Heap, r2: Ranks, c0: Ref, t: Ref, path: seq<Key>, value: Val, b: nat)
    requires Ranked(h0, r0) && Ranked(h2, r2) && forall r :: r in r0 ==> r0[r] < b
    requires c0 in h0 && t !in h0 && InHeap(h0, value) && WalkOk(h0, Ptr(c0), Written(path))
    requires |path| > 1 ==> !Reaches(h0, r0, value, Container(h0, Ptr(c0), Written(path)))
    requires h2 == Assigned(h0, c0, t, path, value)
    ensures t in h2 && h2[t].ObjCell? == h0[c0].ObjCell?
    ensures Resolve(h2, Ptr(t), Written(path)) == Some(value)
    ensures Snap(h2, r2, Ptr(c0)) == if |path| <= 1 then Snap(h0, r0, Ptr(c0)) else Snap(h2, r2, Ptr(t))
    ensures value != Undefined && (|path| <= 1 || OnlyPath(h0, r0, Ptr(c0), path[..|path| - 1], Container(h0, Ptr(c0), Written(path)))) ==>
      Set(Snap(h0, r0, Ptr(c0)), Written(path), Snap(h0, r0, value)) == Some(Snap(h2, r2, Ptr(t)))
  {
    var w := Written(path);
    var prefix, last := w[..|w| - 1], w[|w| - 1];
    assert w == prefix + [last];
    if |w| == 1 {
      assert prefix == [];
      ShallowOutcome(h0, r0, h2, r2, c0, t, last, value);
    } else {
      var c := Container(h0, Ptr(c0), w);
      var h1 := h0[t := h0[c0]];
      var r1 := r0[t := b];
      assert CellBelow(h0, r0, h0[c0], b) by {
        forall x | x in Kids(h0[c0]) ensures ValBelow(h0, r0, x, b) { }
      }
      RankedAlloc(h0, r0, t, h0[c0], b);
      ResolveBelow(h0, r0, Ptr(c0), prefix);
      DeepOutcome(h0, r0, h1, r1, h2, r2, c0, t, prefix, c, last, value, b);
    }
  }

  /** `AssignedTree` for both outcomes of `updateField`: a throw only allocates, a completed update assigns. */
  lemma UpdateTrees(h0: Heap, r0: Ranks, h2: Heap, r2: Ranks, c0: Ref, t: Ref, path: seq<Key>, value: Val, b: nat, thrown: bool, d: Ref)
    requires Ranked(h0, r0) && Ranked(h2, r2) && forall r :: r in r0 ==> r0[r] < b
    requires c0 in h0 && d in h0 && !value.Ptr?
    requires thrown ==> Grows(h0, h2)
    requires !thrown ==> t !in h0 && WalkOk(h0, Ptr(c0), Written(path)) && h2 == Assigned(h0, c0, t, path, value)
    ensures Tree(h0, r0, Ptr(c0)) ==> InHeap(h2, Ptr(if thrown then c0 else t)) && Tree(h2, r2, Ptr(if thrown then c0 else t))
    ensures Tree(h0, r0, Ptr(d)) ==> InHeap(h2, Ptr(d)) && Tree(h2, r2, Ptr(d))
  {
    if thrown {
      if Tree(h0, r0, Ptr(c0)) { TreeGrow(h0, r0, h2, r2, Ptr(c0)); }
      if Tree(h0, r0, Ptr(d)) { TreeGrow(h0, r0, h2, r2, Ptr(d)); }
    } else {
      if Tree(h0, r0, Ptr(c0)) { AssignedTree(h0, r0, h2, r2, c0, t, path, value, b, Ptr(t)); }
      if Tree(h0, r0, Ptr(d)) { AssignedTree(h0, r0, h2, r2, c0, t, path, value, b, Ptr(d)); }
    }
  }

  /**
   * An update that assigns a value holding no reference keeps a tree-shaped
   * value a tree, and the copy of a tree-shaped configuration is a tree.
   */
  lemma AssignedTree(h0: Heap, r0: Ranks, h2: Heap, r2: Ranks, c0: Ref, t: Ref, path: seq<Key>, value: Val, b: nat, v: Val)
    requires Ranked(h0, r0) && Ranked(h2, r2) && forall r :: r in r0 ==> r0[r] < b
    requires c0 in h0 && t !in h0 && !value.Ptr? && WalkOk(h0, Ptr(c0), Written(path))
    requires h2 == Assigned(h0, c0, t, path, value)
    requires (InHeap(h0, v) && Tree(h0, r0, v)) || (v == Ptr(t) && Tree(h0, r0, Ptr(c0)))
    ensures InHeap(h2, v) && Tree(h2, r2, v)
  {
    var w := Written(path);
    var h1, r1 := h0[t := h0[c0]], r0[t := b];
    assert CellBelow(h0, r0, h0[c0], b) by {
      forall x | x in Kids(h0[c0]) ensures ValBelow(h0, r0, x, b) { }
    }
    RankedAlloc(h0, r0, t, h0[c0], b);
    assert Grows(h0, h1);
    if v == Ptr(t) {
      TreeCopy(h0, r0, h1, r1, c0, t);
    } else {
      TreeGrow(h0, r0, h1, r1, v);
    }
    assert w[..0] == [];
    if |w| == 1 {
      assert h2 == h1[t := WriteCell(h1[t], w[0], value)];
      TreeAfterScalar(h1, r1, r2, t, w[0], value, v);
    } else {
      var c := Container(h0, Ptr(c0), w);
      ResolveBelow(h0, r0, Ptr(c0), w[..|w| - 1]);
      assert h2 == h1[c := WriteCell(h1[c], w[|w| - 1], value)];
      TreeAfterScalar(h1, r1, r2, c, w[|w| - 1], value, v);
    }
  }

  /**
   * In the copy of the configuration, `z` shares with the copy only what the
   * value at the written location reaches, when it does so in the original.
   */
  lemma CopySharesDisplaced(h0: Heap, r0: Ranks, h1: Heap, r1: Ranks, c0: Ref, t: Ref, w: seq<Key>, src: Ref, c: Ref, z: Val)
    requires Ranked(h0, r0) && Ranked(h1, r1) && Grows(h0, h1) && c0 in h0 && Tree(h0, r0, Ptr(c0)) && InHeap(h0, z)
    requires t in h1 && t !in h0 && h1[t] == h0[c0] && |w| > 0
    requires Resolve(h0, Ptr(c0), w[..|w| - 1]) == Some(Ptr(src)) && src in h0 && c in h1 && h1[c] == h0[src]
    requires forall s: Ref :: Reaches(h0, r0, z, s) && Reaches(h0, r0, Ptr(c0), s) ==>
      Resolve(h0, Ptr(c0), w).Some? && InHeap(h0, Resolve(h0, Ptr(c0), w).value) &&
      Reaches(h0, r0, Resolve(h0, Ptr(c0), w).value, s)
    ensures InHeap(h1, Ptr(t)) && InHeap(h1, z) && SharesOnlyDisplaced(h1, r1, Ptr(t), c, w[|w| - 1], z)
  {
    var last := w[|w| - 1];
    forall s: Ref | Reaches(h1, r1, z, s) && Reaches(h1, r1, Ptr(t), s)
      ensures At(h1[c], last).Some? && InHeap(h1, At(h1[c], last).value) && Reaches(h1, r1, At(h1[c], last).value, s)
    {
      CopySharesOne(h0, r0, h1, r1, c0, t, w, src, c, z, s);
    }
  }

  /** One reference of `CopySharesDisplaced`. */
  lemma CopySharesOne(h0: Heap, r0: Ranks, h1: Heap, r1: Ranks, c0: Ref, t: Ref, w: seq<Key>, src: Ref, c: Ref, z: Val, s: Ref)
    requires Ranked(h0, r0) && Ranked(h1, r1) && Grows(h0, h1) && c0 in h0 && Tree(h0, r0, Ptr(c0)) && InHeap(h0, z)
    requires t in h1 && t !in h0 && h1[t] == h0[c0] && |w| > 0
    requires Resolve(h0, Ptr(c0), w[..|w| - 1]) == Some(Ptr(src)) && src in h0 && c in h1 && h1[c] == h0[src]
    requires Reaches(h0, r0, z, s) && Reaches(h0, r0, Ptr(c0), s) ==>
      Resolve(h0, Ptr(c0), w).Some? && InHeap(h0, Resolve(h0, Ptr(c0), w).value) &&
      Reaches(h0, r0, Resolve(h0, Ptr(c0), w).value, s)
    requires Reaches(h1, r1, z, s) && Reaches(h1, r1, Ptr(t), s)
    ensures At(h1[c], w[|w| - 1]).Some? && InHeap(h1, At(h1[c], w[|w| - 1]).value) && Reaches(h1, r1, At(h1[c], w[|w| - 1]).value, s)
  {
    var prefix, last := w[..|w| - 1], w[|w| - 1];
    assert w[..0] == [] && prefix + [last] == w && [last][1..] == [];
    ResolveAppend(h0, Ptr(c0), prefix, [last]);
    SnapGrow(h0, r0, h1, r1, z);
    ReachesBelow(h0, r0, z, s);
    SnapPtr(h1, r1, t);
    var x :| x in Kids(h1[t]) && Reaches(h1, r1, x, s);
    assert x in Kids(h0[c0]);
    KidBelow(h0, r0, Ptr(c0), x);
    SnapGrow(h0, r0, h1, r1, x);
    ReachesViaKid(h0, r0, c0, x, s);
    var y := Resolve(h0, Ptr(c0), w).value;
    assert Child(h0, Ptr(src), last) == Some(y);
    ChildAt(h0, Ptr(src), last);
    SnapGrow(h0, r0, h1, r1, y);
  }

  /**
   * An update that assigns a tree `z`, which shares with the configuration only
   * what the replaced value reaches, leaves the copy of a tree-shaped
   * configuration a tree.
   */
  lemma AssignedPtrTree(h0: Heap, r0: Ranks, h2: Heap, r2: Ranks, c0: Ref, t: Ref, path: seq<Key>, z: Val, b: nat)
    requires Ranked(h0, r0) && Ranked(h2, r2) && forall r :: r in r0 ==> r0[r] < b
    requires c0 in h0 && t !in h0 && InHeap(h0, z) && WalkOk(h0, Ptr(c0), Written(path))
    requires h2 == Assigned(h0, c0, t, path, z)
    requires Tree(h0, r0, Ptr(c0)) && Tree(h0, r0, z)
    requires |path| > 1 ==> !Reaches(h0, r0, z, Container(h0, Ptr(c0), Written(path)))
    requires forall s: Ref :: Reaches(h0, r0, z, s) && Reaches(h0, r0, Ptr(c0), s) ==>
      Resolve(h0, Ptr(c0), Written(path)).Some? && InHeap(h0, Resolve(h0, Ptr(c0), Written(path)).value) &&
      Reaches(h0, r0, Resolve(h0, Ptr(c0), Written(path)).value, s)
    ensures t in h2 && Tree(h2, r2, Ptr(t))
  {
    var w := Written(path);
    var prefix, last := w[..|w| - 1], w[|w| - 1];
    var h1, r1 := h0[t := h0[c0]], r0[t := b];
    assert CellBelow(h0, r0, h0[c0], b) by {
      forall x | x in Kids(h0[c0]) ensures ValBelow(h0, r0, x, b) { }
    }
    RankedAlloc(h0, r0, t, h0[c0], b);
    assert Grows(h0, h1);
    TreeCopy(h0, r0, h1, r1, c0, t);
    SnapGrow(h0, r0, h1, r1, z);
    TreeGrow(h0, r0, h1, r1, z);
    Unreached(h0, r0, z, t);
    assert w[..0] == [] && prefix + [last] == w && [last][1..] == [];
    if |w| > 1 { ResolveBelow(h0, r0, Ptr(c0), prefix); }
    var src := if |w| == 1 then c0 else Container(h0, Ptr(c0), w);
    var c := if |w| == 1 then t else src;
    assert Resolve(h0, Ptr(c0), prefix) == Some(Ptr(src));
    assert src in h0 && h1[c] == h0[src] && CellFits(h1[c], last);
    assert !Reaches(h1, r1, z, c);
    CopySharesDisplaced(h0, r0, h1, r1, c0, t, w, src, c, z);
    assert h2 == h1[c := WriteCell(h1[c], last, z)];
    TreeAfterWrite(h1, r1, r2, c, last, z, Ptr(t));
  }

  /** A one-key update writes only into the copy: the old configuration is unchanged and the copy reads as `Set` of it. */
  lemma ShallowOutcome(h0: Heap, r0: Ranks, h2: Heap, r2: Ranks, c0: Ref, t: Ref, k: Key, value: Val)
    requires Ranked(h0, r0) && Ranked(h2, r2) && c0 in h0 && t !in h0 && CellFits(h0[c0], k) && InHeap(h0, value)
    requires h2 == h0[t := WriteCell(h0[c0], k, value)]
    ensures Resolve(h2, Ptr(t), [k]) == Some(value)
    ensures Snap(h2, r2, Ptr(c0)) == Snap(h0, r0, Ptr(c0))
    ensures value != Undefined ==> Set(Snap(h0, r0, Ptr(c0)), [k], Snap(h0, r0, value)) == Some(Snap(h2, r2, Ptr(t)))
  {
    assert Grows(h0, h2);
    SnapGrow(h0, r0, h2, r2, Ptr(c0));
    SnapGrow(h0, r0, h2, r2, value);
    if value != Undefined {
      BottomCopy(h0, r0, h2, r2, c0, t, k, value);
    }
  }

  /**
   * A longer update assigns into container `c`, which the old configuration and
   * the copy share: both read as the same document afterwards, and when nothing
   * else leads to `c` that document is `Set` of the old one.
   */
  lemma DeepOutcome(h0: Heap, r0: Ranks, h1: Heap, r1: Ranks, h2: Heap, r2: Ranks,
                    c0: Ref, t: Ref, prefix: seq<Key>, c: Ref, k: Key, value: Val, b: nat)
    requires Ranked(h0, r0) && Ranked(h1, r1) && Ranked(h2, r2) && forall r :: r in r0 ==> r0[r] < b
    requires c0 in h0 && t !in h0 && h1 == h0[t := h0[c0]] && InHeap(h0, value)
    requires |prefix| > 0 && Resolve(h0, Ptr(c0), prefix) == Some(Ptr(c)) && c in h0 && CellFits(h0[c], k)
    requires !Reaches(h0, r0, value, c)
    requires h2 == h1[c := WriteCell(h1[c], k, value)]
    ensures c != c0 && c != t
    ensures h2 == h0[t := h0[c0]][c := WriteCell(h0[c], k, value)]
    ensures Resolve(h2, Ptr(t), prefix + [k]) == Some(value)
    ensures Snap(h2, r2, Ptr(c0)) == Snap(h2, r2, Ptr(t))
    ensures value != Undefined && OnlyPath(h0, r0, Ptr(c0), prefix, c) ==>
      Set(Snap(h0, r0, Ptr(c0)), prefix + [k], Snap(h0, r0, value)) == Some(Snap(h2, r2, Ptr(t)))
  {
    ResolveBelow(h0, r0, Ptr(c0), prefix);
    var x := WriteCell(h0[c], k, value);
    ResolveSameCell(h1, t, c0, prefix);
    ResolveGrow(h0, r0, h1, Ptr(c0), prefix);
    ResolveUnderWrite(h1, r1, Ptr(t), prefix, c, x);
    ResolveAppend(h2, Ptr(t), prefix, [k]);
    SnapSameCell(h2, r2, c0, t);
    if value != Undefined && OnlyPath(h0, r0, Ptr(c0), prefix, c) {
      DeepSet(h0, r0, h2, r2, c0, t, prefix, c, k, value, b);
    }
  }

  /** The `Set` half of `DeepOutcome`: the shared write reads as `Set` when nothing else leads to `c`. */
  lemma DeepSet(h0: Heap, r0: Ranks, h2: Heap, r2: Ranks,
                c0: Ref, t: Ref, prefix: seq<Key>, c: Ref, k: Key, value: Val, b: nat)
    requires Ranked(h0, r0) && Ranked(h2, r2) && forall r :: r in r0 ==> r0[r] < b
    requires c0 in h0 && t !in h0 && InHeap(h0, value) && value != Undefined
    requires Resolve(h0, Ptr(c0), prefix) == Some(Ptr(c)) && c in h0 && CellFits(h0[c], k)
    requires c != c0 && c != t && !Reaches(h0, r0, value, c)
    requires h2 == h0[t := h0[c0]][c := WriteCell(h0[c], k, value)]
    requires OnlyPath(h0, r0, Ptr(c0), prefix, c) && Snap(h2, r2, Ptr(c0)) == Snap(h2, r2, Ptr(t))
    ensures Set(Snap(h0, r0, Ptr(c0)), prefix + [k], Snap(h0, r0, value)) == Some(Snap(h2, r2, Ptr(t)))
  {
    var x := WriteCell(h0[c], k, value);
    assert h2 == h0[c := x][t := h0[c0]];
    var rr := Rerank(h0, r0, c, b);
    RankedWrite(h0, r0, c, k, value, b);
    WriteSnapshot(h0, r0, rr, Ptr(c0), prefix, c, k, value);
    CopyKeeps(h0[c := x], rr, h2, r2, t, h0[c0], c0);
  }

  /** Allocating a copy afterwards leaves how an existing object reads. */
  lemma CopyKeeps(h: Heap, rank: Ranks, h2: Heap, r2: Ranks, t: Ref, cell: Cell, c0: Ref)
    requires Ranked(h, rank) && Ranked(h2, r2) && t !in h && c0 in h && h2 == h[t := cell]
    ensures Snap(h2, r2, Ptr(c0)) == Snap(h, rank, Ptr(c0))
  {
    assert Grows(h, h2);
    SnapGrow(h, rank, h2, r2, Ptr(c0));
  }

  /** Building the object a module-level constant such as `defaultConfig` names. */
  method AllocDocument(mem: Memory, j: Json) returns (d: Ref)
    requires mem.Valid() && j.JObject?
    modifies mem
    ensures mem.Valid() && Grows(old(mem.heap), mem.heap)
    ensures d in mem.heap && mem.heap[d].ObjCell?
    ensures mem.Snapshot(Ptr(d)) == j
    ensures Tree(mem.heap, mem.rank, Ptr(d))
  {
    var v := mem.AllocJson(j);
    SnapIsObject(mem.heap, mem.rank, v);
    d := v.ref;
  }

  const HeroName: seq<Key> := [Name("hero"), Name("name")]

  /** The seeded default configuration has a hero name, "Asad Synt", and it can be edited. */
  lemma DefaultHeroEditable(v: Json)
    ensures PortfolioConfig.ToJson(PortfolioConfig.DefaultConfig()).JObject?
    ensures Get(PortfolioConfig.ToJson(PortfolioConfig.DefaultConfig()), HeroName) == Some(JString("Asad Synt"))
    ensures Set(PortfolioConfig.ToJson(PortfolioConfig.DefaultConfig()), HeroName, v).Some?
  {
    PortfolioConfig.DefaultHeroName();
    SetDefined(PortfolioConfig.ToJson(PortfolioConfig.DefaultConfig()), HeroName, v);
    assert HeroName[..1] == [Name("hero")];
  }

  /** A fresh page whose default configuration is `seed`, with nothing edited yet. */
  method OpenPage(seed: Json) returns (store: Store)
    requires seed.JObject?
    ensures fresh(store) && fresh(store.mem) && store.Valid() && store.config == store.defaults
    ensures store.Document() == seed && store.mem.Snapshot(Str("X")) == JString("X")
    ensures store.Shaped() && store.DefaultsShaped()
  {
    var mem := new Memory();
    var d := AllocDocument(mem, seed);
    store := new Store(mem, d, map[]);
  }

  /** `updateField(['hero', 'name'], 'X')` as written on a page still showing its defaults: the defaults now read as the edited page. */
  method EditHeroAsWritten(store: Store) returns (shown: Json)
    requires store.Valid() && store.config == store.defaults && store.mem.Snapshot(Str("X")) == JString("X")
    requires store.Shaped() && Set(store.Document(), HeroName, JString("X")).Some?
    modifies store, store.mem
    ensures store.Valid() && shown == store.Document() && store.DefaultsDocument() == shown
    ensures shown == Set(old(store.Document()), HeroName, JString("X")).value
    ensures Get(shown, HeroName) == Some(JString("X"))
  {
    var mem := store.mem;
    assert Written(HeroName) == HeroName && |HeroName| == 2;
    var thrown := store.UpdateField(HeroName, Str("X"));
    assert !thrown;
    ResolveGet(mem.heap, mem.rank, Ptr(store.config), HeroName);
    shown := store.Document();
  }

  /**
   * A fresh page whose default configuration is `seed`, then
   * `updateField(['hero', 'name'], 'X')` and `resetConfig()` as written: the page
   * still shows "X" after the reset, because the edit went into the hero object
   * the default configuration holds. The seeded defaults meet the requirement
   * (`DefaultHeroEditable`).
   */
  method EditThenReset(seed: Json) returns (shown: Json, afterReset: Json)
    requires seed.JObject? && Set(seed, HeroName, JString("X")).Some?
    ensures shown == Set(seed, HeroName, JString("X")).value && afterReset == shown
    ensures Get(shown, HeroName) == Some(JString("X"))
    ensures Get(afterReset, HeroName) == Some(JString("X"))
    ensures Get(seed, HeroName) != Some(JString("X")) ==> afterReset != seed
  {
    var store := OpenPage(seed);
    shown := EditHeroAsWritten(store);
    store.ResetConfig();
    afterReset := store.Document();
  }

  /** The same two steps with the copying update: the reset shows the default configuration again. */
  method EditThenResetCopying(seed: Json) returns (shown: Json, afterReset: Json)
    requires seed.JObject? && Set(seed, HeroName, JString("X")).Some?
    ensures Get(shown, HeroName) == Some(JString("X"))
    ensures afterReset == seed
  {
    var store := OpenPage(seed);
    var thrown := store.UpdateFieldCopying(HeroName, Str("X"));
    SetThenGet(seed, HeroName, JString("X"));
    shown := store.Document();
    store.ResetConfig();
    afterReset := store.Document();
  }
}
