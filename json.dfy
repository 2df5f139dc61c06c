/**
 * JSON documents as values: what `JSON.stringify` writes into local storage and
 * what `JSON.parse` hands back. The text syntax is not modelled.
 */
module Json {
  import opened Options

  /** Numbers are integers here: every number the portfolio uses is one. */
  datatype Json =
    | JNull
    | JBool(b: bool)
    | JNumber(n: int)
    | JString(s: string)
    | JArray(items: seq<Json>)
    | JObject(fields: map<string, Json>)

  /** One step of an update path: an object key or an array index. */
  datatype Key = Name(name: string) | Index(index: nat)

  /** JavaScript truthiness of a document value, as `x || fallback` tests it. */
  predicate Truthy(j: Json) {
    match j
    case JNull => false
    case JBool(b) => b
    case JNumber(n) => n != 0
    case JString(s) => s != ""
    case JArray(_) => true
    case JObject(_) => true
  }

  /** Whether a last path step `k` can be assigned in `j`: a key of an object or an index of an array. */
  predicate Fits(j: Json, k: Key) {
    match (j, k)
    case (JObject(_), Name(_)) => true
    case (JArray(_), Index(_)) => true
    case _ => false
  }

  /**
   * `xs[i] = x` on a JavaScript array: an index past the end lengthens the array,
   * and the positions skipped over become holes, which read as `fill`.
   */
  function Place<T>(xs: seq<T>, i: nat, x: T, fill: T): (ys: seq<T>)
    ensures |ys| == if i < |xs| then |xs| else i + 1
    ensures ys[i] == x
    ensures forall m :: 0 <= m < |xs| && m != i ==> ys[m] == xs[m]
    ensures forall m :: |xs| <= m < |ys| && m != i ==> ys[m] == fill
  {
    if i < |xs| then xs[i := x] else xs + seq(i - |xs|, _ => fill) + [x]
  }

  /** The value found by following `path` from `j`, if every step exists. */
  function Get(j: Json, path: seq<Key>): Option<Json>
    decreases |path|
  {
    if path == [] then Some(j)
    else match (j, path[0])
      case (JObject(fs), Name(n)) => if n in fs then Get(fs[n], path[1..]) else None
      case (JArray(items), Index(i)) => if i < |items| then Get(items[i], path[1..]) else None
      case _ => None
  }

  /**
   * The document `j` with the value at `path` replaced by `v`. The last step may
   * add a new key to an object or lengthen an array; every earlier step must exist. This is the
   * reference meaning of a deep update, against which the in-place writers are proved.
   */
  function Set(j: Json, path: seq<Key>, v: Json): Option<Json>
    decreases |path|
  {
    if path == [] then Some(v)
    else match (j, path[0])
      case (JObject(fs), Name(n)) =>
        if |path| == 1 then Some(JObject(fs[n := v]))
        else if n in fs then
          match Set(fs[n], path[1..], v)
          case Some(c) => Some(JObject(fs[n := c]))
          case None => None
        else None
      case (JArray(items), Index(i)) =>
        if |path| == 1 then Some(JArray(Place(items, i, v, JNull)))
        else if i < |items| then
          match Set(items[i], path[1..], v)
          case Some(c) => Some(JArray(items[i := c]))
          case None => None
        else None
      case _ => None
  }

  /** Two paths part ways: at some position inside both they hold different keys. */
  predicate Diverge(p: seq<Key>, q: seq<Key>)
    decreases |p|
  {
    |p| > 0 && |q| > 0 && (p[0] != q[0] || Diverge(p[1..], q[1..]))
  }

  /** `Set` succeeds exactly when the path's proper prefix exists and its last step fits there. */
  lemma {:induction false} SetDefined(j: Json, path: seq<Key>, v: Json)
    requires |path| > 0
    ensures Set(j, path, v).Some? <==>
      (Get(j, path[..|path| - 1]).Some? && Fits(Get(j, path[..|path| - 1]).value, path[|path| - 1]))
    decreases |path|
  {
    var last := |path| - 1;
    if |path| > 1 {
      assert path[..last][0] == path[0];
      assert path[..last][1..] == path[1..][..|path[1..]| - 1];
      match (j, path[0])
      case (JObject(fs), Name(n)) =>
        if n in fs { SetDefined(fs[n], path[1..], v); }
      case (JArray(items), Index(i)) =>
        if i < |items| { SetDefined(items[i], path[1..], v); }
      case _ =>
    }
  }

  /** After a successful `Set`, the path holds the new value. */
  lemma {:induction false} SetThenGet(j: Json, path: seq<Key>, v: Json)
    requires Set(j, path, v).Some?
    ensures Get(Set(j, path, v).value, path) == Some(v)
    decreases |path|
  {
    if path != [] {
      match (j, path[0])
      case (JObject(fs), Name(n)) =>
        if |path| > 1 { SetThenGet(fs[n], path[1..], v); }
      case (JArray(items), Index(i)) =>
        if |path| > 1 { SetThenGet(items[i], path[1..], v); }
    }
  }

  /** After a successful `Set`, every existing path that parts ways with the updated one reads as before. */
  lemma {:induction false} SetLeavesOthers(j: Json, path: seq<Key>, v: Json, q: seq<Key>)
    requires Set(j, path, v).Some? && Get(j, q).Some?
    requires Diverge(path, q)
    ensures Get(Set(j, path, v).value, q) == Get(j, q)
    decreases |path|
  {
    var j' := Set(j, path, v).value;
    match (j, path[0])
    case (JObject(fs), Name(n)) =>
      var fs' := j'.fields;
      if path[0] == q[0] {
        SetLeavesOthers(fs[n], path[1..], v, q[1..]);
      } else if q[0].Name? && q[0].name in fs {
        assert fs'[q[0].name] == fs[q[0].name] by { assert q[0].name != n; }
      }
    case (JArray(items), Index(i)) =>
      var items' := j'.items;
      if path[0] == q[0] {
        SetLeavesOthers(items[i], path[1..], v, q[1..]);
      } else if q[0].Index? && q[0].index < |items| {
        assert items'[q[0].index] == items[q[0].index] by { assert q[0].index != i; }
      }
  }

  /** The decimal numeral of `n`, as `index.toString()` and object spread write array indices. */
  function Decimal(n: nat): (s: string)
    ensures |s| > 0 && forall c :: c in s ==> '0' <= c <= '9'
  {
    var d := ['0', '1', '2', '3', '4', '5', '6', '7', '8', '9'][n % 10];
    if n < 10 then [d] else Decimal(n / 10) + [d]
  }

  /** The numerals of the indices below `n`. */
  ghost function Numerals(n: nat): set<string> {
    set i | 0 <= i < n :: Decimal(i)
  }

  /** The numerals below `n + 1` are those below `n` and that of `n`. */
  lemma NumeralsStep(n: nat)
    ensures Numerals(n + 1) == Numerals(n) + {Decimal(n)}
  {
    var a := Numerals(n + 1);
    var b := Numerals(n);
    forall x | x in a ensures x in b + {Decimal(n)} {
      var i :| 0 <= i < n + 1 && x == Decimal(i);
      if i < n {
        assert x in b;
      }
    }
    forall x | x in b + {Decimal(n)} ensures x in a {
      if x != Decimal(n) {
        var i :| 0 <= i < n && x == Decimal(i);
        assert 0 <= i < n + 1;
      }
    }
  }

  /** The own properties that spreading an array-like value copies: index numerals to elements. */
  function IndexMap<T>(xs: seq<T>): (m: map<string, T>)
    ensures m.Keys == Numerals(|xs|)
    decreases |xs|
  {
    if xs == [] then map[]
    else
      var n := |xs| - 1;
      var m := IndexMap(xs[..n]);
      NumeralsStep(n);
      m[Decimal(n) := xs[n]]
  }

  /** Each property of an index map is the numeral of an index and holds that element. */
  lemma {:induction false} IndexMapAt<T>(xs: seq<T>, k: string) returns (i: nat)
    requires k in IndexMap(xs)
    ensures i < |xs| && Decimal(i) == k && IndexMap(xs)[k] == xs[i]
    decreases |xs|
  {
    var n := |xs| - 1;
    if k == Decimal(n) {
      i := n;
    } else {
      i := IndexMapAt(xs[..n], k);
    }
  }

  /** What `{...j}` copies from a parsed value: an object's fields, the indices of an array or a string, nothing from a scalar. */
  function Spread(j: Json): map<string, Json> {
    match j
    case JObject(fs) => fs
    case JArray(items) => IndexMap(items)
    case JString(s) => IndexMap(seq(|s|, i requires 0 <= i < |s| => JString([s[i]])))
    case _ => map[]
  }

  /** A spread never yields a key made of letters only: index numerals consist of digits. */
  lemma SpreadOfNonObjectHasDigitKeys(j: Json, k: string)
    requires !j.JObject? && k in Spread(j)
    ensures |k| > 0 && '0' <= k[0] <= '9'
  {
    match j
    case JArray(items) =>
      var i :| 0 <= i < |items| && Decimal(i) == k;
      assert k[0] in k;
    case JString(s) =>
      var i :| 0 <= i < |s| && Decimal(i) == k;
      assert k[0] in k;
  }

  /** A longer `Set` is the `Set` inside the first step, put back with a one-step `Set`. */
  lemma SetCons(j: Json, k: Key, q: seq<Key>, v: Json)
    requires |q| > 0 && Get(j, [k]).Some?
    ensures Set(j, [k] + q, v) ==
      match Set(Get(j, [k]).value, q, v) case None => None case Some(c) => Set(j, [k], c)
  {
    assert ([k] + q)[0] == k && ([k] + q)[1..] == q;
  }
}
