/**
 * The JavaScript object heap, made explicit. The portfolio document lives in
 * memory as objects and arrays that refer to one another by reference; the
 * in-place writers of the store and of the edit dialog change those containers,
 * and every other holder of a reference sees the change. A heap here is a map
 * from references to cells, and a ghost rank map shows that no container
 * contains itself, which is what lets `JSON.stringify` (`Snap`) terminate.
 */
module JsHeap {
  import opened Options
  import opened Json

  type Ref = nat

  /** A JavaScript value as a property or an array element holds it. */
  datatype Val = Undefined | Null | Bool(b: bool) | Num(n: int) | Str(s: string) | Ptr(ref: Ref)

  /** A container on the heap: a plain object or an array. */
  datatype Cell = ObjCell(fields: map<string, Val>) | ArrCell(items: seq<Val>)

  type Heap = map<Ref, Cell>
  type Ranks = map<Ref, nat>

  /** A reference value points at an allocated cell. */
  predicate InHeap(h: Heap, v: Val) {
    v.Ptr? ==> v.ref in h
  }

  /** JavaScript truthiness: `undefined`, `null`, `false`, `0` and `""` are falsy, every object and array is truthy. */
  predicate ValTruthy(v: Val) {
    match v
    case Undefined => false
    case Null => false
    case Bool(b) => b
    case Num(n) => n != 0
    case Str(s) => s != ""
    case Ptr(_) => true
  }

  /** The values a cell holds directly. */
  function Kids(c: Cell): set<Val> {
    match c
    case ObjCell(fs) => fs.Values
    case ArrCell(items) => set x | x in items
  }

  ghost predicate ValBelow(h: Heap, rank: Ranks, v: Val, n: nat) {
    v.Ptr? ==> v.ref in h && v.ref in rank && rank[v.ref] < n
  }

  /** Every reference held by `c` is allocated and ranked below `n`. */
  ghost predicate CellBelow(h: Heap, rank: Ranks, c: Cell, n: nat) {
    forall x :: x in Kids(c) ==> ValBelow(h, rank, x, n)
  }

  /** Every cell is ranked above the cells it holds: the heap has no cycle. */
  ghost predicate Ranked(h: Heap, rank: Ranks) {
    forall r :: r in h ==> r in rank && CellBelow(h, rank, h[r], rank[r])
  }

  ghost function Height(rank: Ranks, v: Val): nat {
    if v.Ptr? && v.ref in rank then rank[v.ref] + 1 else 0
  }

  /** Every cell of `h` is still there, unchanged, in `h'`: `h'` only allocated. */
  ghost predicate Grows(h: Heap, h': Heap) {
    forall r :: r in h ==> r in h' && h'[r] == h[r]
  }

  /**
   * The document a value reads as, as `JSON.stringify` serialises it: properties
   * holding `undefined` are omitted, `undefined` array elements become `null`.
   */
  function Snap(h: Heap, ghost rank: Ranks, v: Val): Json
    requires Ranked(h, rank) && InHeap(h, v)
    decreases Height(rank, v)
  {
    match v
    case Undefined => JNull
    case Null => JNull
    case Bool(b) => JBool(b)
    case Num(n) => JNumber(n)
    case Str(s) => JString(s)
    case Ptr(r) =>
      match h[r]
      case ObjCell(fs) =>
        JObject(map k | k in fs && !fs[k].Undefined? :: (assert fs[k] in Kids(h[r]); Snap(h, rank, fs[k])))
      case ArrCell(items) =>
        JArray(seq(|items|, i requires 0 <= i < |items| => (assert items[i] in Kids(h[r]); Snap(h, rank, items[i]))))
  }

  /** The cell `target` can be reached from `v` by following references. */
  ghost predicate Reaches(h: Heap, rank: Ranks, v: Val, target: Ref)
    requires Ranked(h, rank) && InHeap(h, v)
    decreases Height(rank, v)
  {
    v.Ptr? && (v.ref == target || exists x :: x in Kids(h[v.ref]) && Reaches(h, rank, x, target))
  }

  /** Whether `c[k] = w` is an assignment the model covers: a key of an object, an index of an array. */
  predicate CellFits(c: Cell, k: Key) {
    match (c, k)
    case (ObjCell(_), Name(_)) => true
    case (ArrCell(_), Index(_)) => true
    case _ => false
  }

  /** The cell after `c[k] = w`; an index past the end of an array leaves holes, which read as `undefined`. */
  function WriteCell(c: Cell, k: Key, w: Val): (c': Cell)
    requires CellFits(c, k)
    ensures CellFits(c', k) && c'.ObjCell? == c.ObjCell? && w in Kids(c') && At(c', k) == Some(w)
    ensures forall x :: x in Kids(c') ==> x in Kids(c) || x == w || x == Undefined
  {
    match (c, k)
    case (ObjCell(fs), Name(n)) =>
      var fs' := fs[n := w];
      assert fs'[n] == w;
      assert forall x :: x in fs'.Values ==> x in fs.Values || x == w by {
        forall x | x in fs'.Values ensures x in fs.Values || x == w {
          var m :| m in fs' && fs'[m] == x;
          if m != n { assert fs[m] == x; }
        }
      }
      ObjCell(fs')
    case (ArrCell(items), Index(i)) =>
      var items' := Place(items, i, w, Undefined);
      assert items'[i] == w;
      assert forall x :: x in items' ==> x in items || x == w || x == Undefined by {
        forall x | x in items' ensures x in items || x == w || x == Undefined {
          var m :| 0 <= m < |items'| && items'[m] == x;
          if m < |items| && m != i { assert items[m] == x; }
        }
      }
      ArrCell(items')
  }

  /** The value a cell holds at position `k`, if it has that position. */
  function At(c: Cell, k: Key): Option<Val> {
    match (c, k)
    case (ObjCell(fs), Name(n)) => if n in fs then Some(fs[n]) else None
    case (ArrCell(items), Index(i)) => if i < |items| then Some(items[i]) else None
    case _ => None
  }

  lemma AtKid(c: Cell, k: Key)
    requires At(c, k).Some?
    ensures At(c, k).value in Kids(c)
  {
  }

  /** What a cell reads as, given how its elements read. */
  function CellSnap(h: Heap, ghost rank: Ranks, c: Cell): Json
    requires Ranked(h, rank) && forall x :: x in Kids(c) ==> InHeap(h, x)
  {
    match c
    case ObjCell(fs) =>
      JObject(map k | k in fs && !fs[k].Undefined? :: (assert fs[k] in Kids(c); Snap(h, rank, fs[k])))
    case ArrCell(items) =>
      JArray(seq(|items|, i requires 0 <= i < |items| => (assert items[i] in Kids(c); Snap(h, rank, items[i]))))
  }

  /** `v[k]`: a property of an object or an element of an array; `undefined` when absent. */
  function Child(h: Heap, v: Val, k: Key): Option<Val> {
    if v.Ptr? && v.ref in h then
      match (h[v.ref], k)
      case (ObjCell(fs), Name(n)) => Some(if n in fs then fs[n] else Undefined)
      case (ArrCell(items), Index(i)) => Some(if i < |items| then items[i] else Undefined)
      case _ => None
    else None
  }

  /** The value reached by reading `path` step by step from `v`; None where a step reads through a non-container. */
  function Resolve(h: Heap, v: Val, path: seq<Key>): Option<Val>
    decreases |path|
  {
    if path == [] then Some(v)
    else match Child(h, v, path[0])
      case None => None
      case Some(w) => Resolve(h, w, path[1..])
  }

  /** `v[k] = w` can be performed: `v` is a container and `k` fits it. */
  predicate Writable(h: Heap, v: Val, k: Key) {
    v.Ptr? && v.ref in h && CellFits(h[v.ref], k)
  }

  // ----- Lemmas about ranks and reachability -----

  lemma KidBelow(h: Heap, rank: Ranks, v: Val, x: Val)
    requires Ranked(h, rank) && v.Ptr? && v.ref in h && x in Kids(h[v.ref])
    ensures InHeap(h, x) && Height(rank, x) < Height(rank, v)
  {
  }

  /** A property read that succeeds names a position the cell's kind can be assigned at. */
  lemma ChildFits(h: Heap, v: Val, k: Key)
    requires Child(h, v, k).Some?
    ensures v.Ptr? && v.ref in h && CellFits(h[v.ref], k)
  {
  }

  lemma ChildBelow(h: Heap, rank: Ranks, v: Val, k: Key)
    requires Ranked(h, rank) && Child(h, v, k).Some?
    ensures v.Ptr? && v.ref in h
    ensures InHeap(h, Child(h, v, k).value) && Height(rank, Child(h, v, k).value) < Height(rank, v)
    ensures Child(h, v, k).value.Ptr? ==> Child(h, v, k).value in Kids(h[v.ref])
  {
    match (h[v.ref], k)
    case (ObjCell(fs), Name(n)) =>
      if n in fs { assert fs[n] in Kids(h[v.ref]); }
    case (ArrCell(items), Index(i)) =>
      if i < |items| { assert items[i] in Kids(h[v.ref]); }
  }

  /** What `v` reaches is allocated and ranked no higher than `v`. */
  lemma {:induction false} ReachesBelow(h: Heap, rank: Ranks, v: Val, t: Ref)
    requires Ranked(h, rank) && InHeap(h, v) && Reaches(h, rank, v, t)
    ensures t in h && Height(rank, Ptr(t)) <= Height(rank, v)
    decreases Height(rank, v)
  {
    if v.ref != t {
      var x :| x in Kids(h[v.ref]) && Reaches(h, rank, x, t);
      KidBelow(h, rank, v, x);
      ReachesBelow(h, rank, x, t);
    }
  }

  /** Nothing a cell holds reaches back to the cell itself. */
  lemma NoCycle(h: Heap, rank: Ranks, r: Ref, x: Val)
    requires Ranked(h, rank) && r in h && x in Kids(h[r])
    ensures InHeap(h, x) && !Reaches(h, rank, x, r)
  {
    KidBelow(h, rank, Ptr(r), x);
    if Reaches(h, rank, x, r) {
      ReachesBelow(h, rank, x, r);
    }
  }

  /**
   * A value reads the same in two heaps that agree on every cell it reaches,
   * and reaches the same cells there.
   */
  lemma {:induction false} Frame(h: Heap, rank: Ranks, h': Heap, rank': Ranks, v: Val)
    requires Ranked(h, rank) && Ranked(h', rank') && InHeap(h, v)
    requires forall r :: r in h && Reaches(h, rank, v, r) ==> r in h' && h'[r] == h[r]
    ensures InHeap(h', v)
    ensures Snap(h', rank', v) == Snap(h, rank, v)
    ensures forall t :: Reaches(h', rank', v, t) <==> Reaches(h, rank, v, t)
    decreases Height(rank, v)
  {
    if v.Ptr? {
      var r := v.ref;
      assert Reaches(h, rank, v, r);
      var c := h[r];
      forall x | x in Kids(c)
        ensures InHeap(h', x) && Snap(h', rank', x) == Snap(h, rank, x)
        ensures forall t :: Reaches(h', rank', x, t) <==> Reaches(h, rank, x, t)
      {
        KidBelow(h, rank, v, x);
        forall r2 | r2 in h && Reaches(h, rank, x, r2) ensures r2 in h' && h'[r2] == h[r2] {
          assert Reaches(h, rank, v, r2);
        }
        Frame(h, rank, h', rank', x);
      }
      match c
      case ObjCell(fs) =>
        assert forall k :: k in fs ==> fs[k] in Kids(c);
      case ArrCell(items) =>
        assert forall i :: 0 <= i < |items| ==> items[i] in Kids(c);
    }
  }

  /** Allocating new cells changes nothing an existing value reads as or reaches. */
  lemma SnapGrow(h: Heap, rank: Ranks, h': Heap, rank': Ranks, v: Val)
    requires Ranked(h, rank) && Ranked(h', rank') && InHeap(h, v) && Grows(h, h')
    ensures InHeap(h', v) && Snap(h', rank', v) == Snap(h, rank, v)
    ensures forall t :: Reaches(h', rank', v, t) <==> Reaches(h, rank, v, t)
  {
    Frame(h, rank, h', rank', v);
  }

  /** Overwriting a cell that `v` does not reach changes nothing `v` reads as or reaches. */
  lemma SnapUnreached(h: Heap, rank: Ranks, c: Ref, x: Cell, rank': Ranks, v: Val)
    requires Ranked(h, rank) && Ranked(h[c := x], rank') && InHeap(h, v) && !Reaches(h, rank, v, c)
    ensures InHeap(h[c := x], v) && Snap(h[c := x], rank', v) == Snap(h, rank, v)
    ensures forall t :: Reaches(h[c := x], rank', v, t) <==> Reaches(h, rank, v, t)
  {
    Frame(h, rank, h[c := x], rank', v);
  }

  /** Two references to cells with the same contents read as the same document. */
  lemma SnapSameCell(h: Heap, rank: Ranks, a: Ref, b: Ref)
    requires Ranked(h, rank) && a in h && b in h && h[a] == h[b]
    ensures Snap(h, rank, Ptr(a)) == Snap(h, rank, Ptr(b))
  {
  }

  /** Adding a cell ranked above everything it holds keeps the heap ranked. */
  lemma RankedAlloc(h: Heap, rank: Ranks, t: Ref, c: Cell, n: nat)
    requires Ranked(h, rank) && t !in h && CellBelow(h, rank, c, n)
    ensures Ranked(h[t := c], rank[t := n])
  {
    var h', rank' := h[t := c], rank[t := n];
    forall r | r in h' ensures r in rank' && CellBelow(h', rank', h'[r], rank'[r]) {
      forall x | x in Kids(h'[r]) ensures ValBelow(h', rank', x, rank'[r]) {
        if r != t {
          assert ValBelow(h, rank, x, rank[r]);
        }
      }
    }
  }

  /**
   * The rank map after writing into cell `c`: every cell that reaches `c` moves up by `b`.
   */
  ghost function Rerank(h: Heap, rank: Ranks, c: Ref, b: nat): Ranks
    requires Ranked(h, rank)
  {
    map r | r in rank :: rank[r] + (if r in h && Reaches(h, rank, Ptr(r), c) then b else 0)
  }

  lemma ReachesViaKid(h: Heap, rank: Ranks, r: Ref, x: Val, c: Ref)
    requires Ranked(h, rank) && r in h && x in Kids(h[r]) && Reaches(h, rank, x, c)
    ensures Reaches(h, rank, Ptr(r), c)
  {
  }

  /**
   * Writing `w` into `c` keeps the heap acyclic when `w` does not reach `c`: the
   * re-ranked heap is ranked again.
   */
  lemma RankedWrite(h: Heap, rank: Ranks, c: Ref, k: Key, w: Val, b: nat)
    requires Ranked(h, rank) && c in h && CellFits(h[c], k) && InHeap(h, w)
    requires !Reaches(h, rank, w, c)
    requires forall r :: r in rank ==> rank[r] < b
    ensures Ranked(h[c := WriteCell(h[c], k, w)], Rerank(h, rank, c, b))
    ensures forall r :: r in Rerank(h, rank, c, b) ==> Rerank(h, rank, c, b)[r] < b + b
  {
    var h' := h[c := WriteCell(h[c], k, w)];
    var rank' := Rerank(h, rank, c, b);
    assert Reaches(h, rank, Ptr(c), c);
    forall r | r in h' ensures r in rank' && CellBelow(h', rank', h'[r], rank'[r]) {
      forall x | x in Kids(h'[r]) ensures ValBelow(h', rank', x, rank'[r]) {
        if x.Ptr? {
          var p := x.ref;
          if r != c {
            assert x in Kids(h[r]);
            KidBelow(h, rank, Ptr(r), x);
            if Reaches(h, rank, x, c) {
              ReachesViaKid(h, rank, r, x, c);
            }
            assert Reaches(h, rank, Ptr(p), c) <==> Reaches(h, rank, x, c);
          } else if x in Kids(h[c]) {
            KidBelow(h, rank, Ptr(c), x);
          } else {
            assert x == w;
            assert !Reaches(h, rank, Ptr(p), c);
          }
        }
      }
    }
  }

  // ----- Lemmas about reading along a path -----

  /** Reading `p + q` is reading `p`, then `q` from there. */
  lemma {:induction false} ResolveAppend(h: Heap, v: Val, p: seq<Key>, q: seq<Key>)
    ensures Resolve(h, v, p + q) ==
      match Resolve(h, v, p) case None => None case Some(w) => Resolve(h, w, q)
    decreases |p|
  {
    if p != [] {
      assert (p + q)[0] == p[0] && (p + q)[1..] == p[1..] + q;
      match Child(h, v, p[0])
      case None =>
      case Some(w) => ResolveAppend(h, w, p[1..], q);
    } else {
      assert p + q == q;
    }
  }

  /** What a path reads is allocated, reached from the start, and ranked below it when the path is not empty. */
  lemma {:induction false} ResolveBelow(h: Heap, rank: Ranks, v: Val, p: seq<Key>)
    requires Ranked(h, rank) && InHeap(h, v) && Resolve(h, v, p).Some?
    ensures InHeap(h, Resolve(h, v, p).value)
    ensures |p| > 0 ==> Height(rank, Resolve(h, v, p).value) < Height(rank, v)
    ensures Resolve(h, v, p).value.Ptr? ==> Reaches(h, rank, v, Resolve(h, v, p).value.ref)
    decreases |p|
  {
    if p != [] {
      ChildBelow(h, rank, v, p[0]);
      var w := Child(h, v, p[0]).value;
      ResolveBelow(h, rank, w, p[1..]);
      var end := Resolve(h, v, p).value;
      if end.Ptr? {
        ReachesViaKid(h, rank, v.ref, w, end.ref);
      }
    }
  }

  /** Allocation does not change what a path reads. */
  lemma {:induction false} ResolveGrow(h: Heap, rank: Ranks, h': Heap, v: Val, p: seq<Key>)
    requires Ranked(h, rank) && InHeap(h, v) && Grows(h, h')
    ensures Resolve(h', v, p) == Resolve(h, v, p)
    decreases |p|
  {
    if p != [] {
      assert Child(h', v, p[0]) == Child(h, v, p[0]);
      if Child(h, v, p[0]).Some? {
        ChildBelow(h, rank, v, p[0]);
        ResolveGrow(h, rank, h', Child(h, v, p[0]).value, p[1..]);
      }
    }
  }

  /** Overwriting the cell a path ends at does not change where the path leads. */
  lemma {:induction false} ResolveUnderWrite(h: Heap, rank: Ranks, v: Val, p: seq<Key>, c: Ref, x: Cell)
    requires Ranked(h, rank) && InHeap(h, v) && Resolve(h, v, p) == Some(Ptr(c))
    ensures Resolve(h[c := x], v, p) == Some(Ptr(c))
    decreases |p|
  {
    if p != [] {
      ChildBelow(h, rank, v, p[0]);
      var w := Child(h, v, p[0]).value;
      ResolveBelow(h, rank, w, p[1..]);
      assert v.ref != c;
      assert Child(h[c := x], v, p[0]) == Child(h, v, p[0]);
      ResolveUnderWrite(h, rank, w, p[1..], c, x);
    }
  }

  /** Two references to cells with the same contents lead the same way along a non-empty path. */
  lemma ResolveSameCell(h: Heap, a: Ref, b: Ref, p: seq<Key>)
    requires a in h && b in h && h[a] == h[b] && |p| > 0
    ensures Resolve(h, Ptr(a), p) == Resolve(h, Ptr(b), p)
  {
    assert Child(h, Ptr(a), p[0]) == Child(h, Ptr(b), p[0]);
  }

  // ----- Lemmas about what a write does to a snapshot -----

  lemma SnapPtr(h: Heap, rank: Ranks, r: Ref)
    requires Ranked(h, rank) && r in h
    ensures forall x :: x in Kids(h[r]) ==> InHeap(h, x)
    ensures Snap(h, rank, Ptr(r)) == CellSnap(h, rank, h[r])
  {
    forall x | x in Kids(h[r]) ensures InHeap(h, x) {
      KidBelow(h, rank, Ptr(r), x);
    }
  }

  /** A cell reads the same in two heaps where each of its elements reads the same. */
  lemma CellSnapFrame(h: Heap, rank: Ranks, h': Heap, rank': Ranks, c: Cell)
    requires Ranked(h, rank) && Ranked(h', rank')
    requires forall x :: x in Kids(c) ==> InHeap(h, x) && InHeap(h', x) && Snap(h', rank', x) == Snap(h, rank, x)
    ensures CellSnap(h', rank', c) == CellSnap(h, rank, c)
  {
    match c
    case ObjCell(fs) =>
      var m, m' := CellSnap(h, rank, c).fields, CellSnap(h', rank', c).fields;
      assert m'.Keys == m.Keys;
      forall q | q in m ensures m'[q] == m[q] {
        assert fs[q] in Kids(c);
      }
      assert m' == m;
    case ArrCell(items) =>
      var xs, xs' := CellSnap(h, rank, c).items, CellSnap(h', rank', c).items;
      forall i | 0 <= i < |items| ensures xs'[i] == xs[i] {
        assert items[i] in Kids(c);
      }
      assert xs' == xs;
  }

  /** `c[k] = w` changes what the cell reads as exactly as a one-step `Set` of the document. */
  lemma CellSnapWrite(h: Heap, rank: Ranks, c: Cell, k: Key, w: Val)
    requires Ranked(h, rank) && forall x :: x in Kids(c) ==> InHeap(h, x)
    requires CellFits(c, k) && InHeap(h, w) && w != Undefined
    ensures forall x :: x in Kids(WriteCell(c, k, w)) ==> InHeap(h, x)
    ensures Set(CellSnap(h, rank, c), [k], Snap(h, rank, w)) == Some(CellSnap(h, rank, WriteCell(c, k, w)))
  {
    var c' := WriteCell(c, k, w);
    match (c, k)
    case (ObjCell(fs), Name(n)) =>
      var m := CellSnap(h, rank, c).fields;
      var m' := CellSnap(h, rank, c').fields;
      assert forall q :: q in fs ==> fs[q] in Kids(c);
      assert m' == m[n := Snap(h, rank, w)];
    case (ArrCell(items), Index(i)) =>
      var xs := CellSnap(h, rank, c).items;
      var xs' := CellSnap(h, rank, c').items;
      var ys := Place(xs, i, Snap(h, rank, w), JNull);
      forall m | 0 <= m < |xs'| ensures xs'[m] == ys[m] {
        if m != i && m < |items| { assert items[m] in Kids(c); }
      }
      assert xs' == ys;
  }

  /** Every position of cell `cell` other than `k` holds a value that does not reach cell `c`. */
  ghost predicate OthersMiss(h: Heap, rank: Ranks, cell: Cell, k: Key, c: Ref)
    requires Ranked(h, rank) && forall x :: x in Kids(cell) ==> InHeap(h, x)
  {
    forall k2 :: k2 != k && At(cell, k2).Some? ==> (AtKid(cell, k2); !Reaches(h, rank, At(cell, k2).value, c))
  }

  /** Along `path` from `v`, cell `c` can be reached only by following the path itself. */
  ghost predicate OnlyPath(h: Heap, rank: Ranks, v: Val, path: seq<Key>, c: Ref)
    requires Ranked(h, rank) && InHeap(h, v)
    decreases |path|
  {
    path == [] ||
    match Child(h, v, path[0])
    case None => true
    case Some(x) =>
      SnapPtr(h, rank, v.ref);
      ChildBelow(h, rank, v, path[0]);
      OthersMiss(h, rank, h[v.ref], path[0], c) && OnlyPath(h, rank, x, path[1..], c)
  }

  lemma ChildAt(h: Heap, v: Val, k: Key)
    requires Child(h, v, k).Some? && Child(h, v, k).value != Undefined
    ensures v.Ptr? && v.ref in h && At(h[v.ref], k) == Child(h, v, k)
  {
  }

  /** Allocation keeps a path the only way to reach a cell. */
  lemma {:induction false} OnlyPathGrow(h: Heap, rank: Ranks, h': Heap, rank': Ranks, v: Val, path: seq<Key>, c: Ref)
    requires Ranked(h, rank) && Ranked(h', rank') && Grows(h, h') && InHeap(h, v)
    requires OnlyPath(h, rank, v, path, c)
    ensures InHeap(h', v) && OnlyPath(h', rank', v, path, c)
    decreases |path|
  {
    if path != [] && Child(h, v, path[0]).Some? {
      assert Child(h', v, path[0]) == Child(h, v, path[0]);
      var cell := h[v.ref];
      forall k2 | k2 != path[0] && At(cell, k2).Some?
        ensures InHeap(h, At(cell, k2).value)
        ensures !Reaches(h', rank', At(cell, k2).value, c)
      {
        AtKid(cell, k2);
        SnapGrow(h, rank, h', rank', At(cell, k2).value);
      }
      ChildBelow(h, rank, v, path[0]);
      OnlyPathGrow(h, rank, h', rank', Child(h, v, path[0]).value, path[1..], c);
    }
  }

  /** The written cell itself reads as the one-step `Set` of its old document. */
  lemma WriteHere(h: Heap, rank: Ranks, rank': Ranks, c: Ref, k: Key, w: Val)
    requires Ranked(h, rank)
    requires c in h && CellFits(h[c], k) && InHeap(h, w) && w != Undefined && !Reaches(h, rank, w, c)
    requires Ranked(h[c := WriteCell(h[c], k, w)], rank')
    ensures Set(Snap(h, rank, Ptr(c)), [k], Snap(h, rank, w)) == Some(Snap(h[c := WriteCell(h[c], k, w)], rank', Ptr(c)))
  {
    var h' := h[c := WriteCell(h[c], k, w)];
    SnapPtr(h, rank, c);
    CellSnapWrite(h, rank, h[c], k, w);
    SnapPtr(h', rank', c);
    forall x | x in Kids(h'[c]) ensures InHeap(h, x) && InHeap(h', x) && Snap(h', rank', x) == Snap(h, rank, x) {
      if x != w && x != Undefined { NoCycle(h, rank, c, x); }
      SnapUnreached(h, rank, c, h'[c], rank', x);
    }
    CellSnapFrame(h, rank, h', rank', h'[c]);
  }

  /**
   * A cell that is the same in both heaps, and whose elements other than the one
   * at `k` read the same, reads as its old document with position `k` set.
   */
  lemma StepSnap(h: Heap, rank: Ranks, h': Heap, rank': Ranks, r: Ref, k: Key, x: Val)
    requires Ranked(h, rank) && Ranked(h', rank') && r in h && r in h' && h'[r] == h[r]
    requires At(h[r], k) == Some(x) && x != Undefined && InHeap(h', x)
    requires forall k2 :: k2 != k && At(h[r], k2).Some? ==>
      InHeap(h, At(h[r], k2).value) && InHeap(h', At(h[r], k2).value) && Snap(h', rank', At(h[r], k2).value) == Snap(h, rank, At(h[r], k2).value)
    ensures Set(Snap(h, rank, Ptr(r)), [k], Snap(h', rank', x)) == Some(Snap(h', rank', Ptr(r)))
  {
    SnapPtr(h, rank, r);
    SnapPtr(h', rank', r);
    AtKid(h[r], k);
    var cell := h[r];
    match (cell, k)
    case (ObjCell(fs), Name(n)) =>
      var m, m' := CellSnap(h, rank, cell).fields, CellSnap(h', rank', cell).fields;
      forall q | q in fs ensures q in m' <==> q in m[n := Snap(h', rank', x)]
        ensures q in m' ==> m'[q] == m[n := Snap(h', rank', x)][q]
      {
        assert fs[q] in Kids(cell);
        assert At(cell, Name(q)) == Some(fs[q]);
      }
      assert m' == m[n := Snap(h', rank', x)];
    case (ArrCell(items), Index(i)) =>
      var xs, xs' := CellSnap(h, rank, cell).items, CellSnap(h', rank', cell).items;
      forall q | 0 <= q < |items| ensures xs'[q] == xs[i := Snap(h', rank', x)][q] {
        assert items[q] in Kids(cell);
        assert At(cell, Index(q)) == Some(items[q]);
      }
      assert xs' == xs[i := Snap(h', rank', x)];
  }

  /** When no other position of cell `r` reaches `c`, rewriting `c` leaves how those positions read. */
  lemma OthersUnchanged(h: Heap, rank: Ranks, rank': Ranks, r: Ref, k: Key, c: Ref, cell: Cell)
    requires Ranked(h, rank) && r in h && Ranked(h[c := cell], rank')
    requires forall x :: x in Kids(h[r]) ==> InHeap(h, x)
    requires OthersMiss(h, rank, h[r], k, c)
    ensures forall k2 :: k2 != k && At(h[r], k2).Some? ==>
      InHeap(h, At(h[r], k2).value) && InHeap(h[c := cell], At(h[r], k2).value) &&
      Snap(h[c := cell], rank', At(h[r], k2).value) == Snap(h, rank, At(h[r], k2).value)
  {
    forall k2 | k2 != k && At(h[r], k2).Some?
      ensures InHeap(h, At(h[r], k2).value) && InHeap(h[c := cell], At(h[r], k2).value)
      ensures Snap(h[c := cell], rank', At(h[r], k2).value) == Snap(h, rank, At(h[r], k2).value)
    {
      var y := At(h[r], k2).value;
      AtKid(h[r], k2);
      assert !Reaches(h, rank, y, c);
      SnapUnreached(h, rank, c, cell, rank', y);
    }
  }

  /** One step of `WriteSnapshot`: the write below position `k0` of cell `r` reads, from `r`, as a `Set` one key longer. */
  lemma WriteStep(h: Heap, rank: Ranks, rank': Ranks, r: Ref, k0: Key, rest: seq<Key>, c: Ref, cell: Cell, x: Val, j: Json)
    requires Ranked(h, rank) && r in h && r != c && Ranked(h[c := cell], rank') && |rest| > 0
    requires forall y :: y in Kids(h[r]) ==> InHeap(h, y)
    requires At(h[r], k0) == Some(x) && x != Undefined && InHeap(h, x) && InHeap(h[c := cell], x)
    requires OthersMiss(h, rank, h[r], k0, c)
    requires Set(Snap(h, rank, x), rest, j) == Some(Snap(h[c := cell], rank', x))
    ensures Set(Snap(h, rank, Ptr(r)), [k0] + rest, j) == Some(Snap(h[c := cell], rank', Ptr(r)))
  {
    var h' := h[c := cell];
    OthersUnchanged(h, rank, rank', r, k0, c, cell);
    StepSnap(h, rank, h', rank', r, k0, x);
    SnapPtr(h, rank, r);
    ResolveGet(h, rank, Ptr(r), [k0]);
    assert Resolve(h, Ptr(r), [k0]) == Some(x);
    SetCons(Snap(h, rank, Ptr(r)), k0, rest, j);
  }

  /**
   * Writing `w` into the cell `c` that `path` leads to reads, from `v`, as setting
   * `path + [k]` in `v`'s document, provided nothing else on the way reaches `c`.
   */
  lemma {:induction false} WriteSnapshot(h: Heap, rank: Ranks, rank': Ranks, v: Val, path: seq<Key>, c: Ref, k: Key, w: Val)
    requires Ranked(h, rank) && InHeap(h, v)
    requires c in h && CellFits(h[c], k) && InHeap(h, w) && w != Undefined && !Reaches(h, rank, w, c)
    requires Resolve(h, v, path) == Some(Ptr(c))
    requires Ranked(h[c := WriteCell(h[c], k, w)], rank')
    requires OnlyPath(h, rank, v, path, c)
    ensures Set(Snap(h, rank, v), path + [k], Snap(h, rank, w)) == Some(Snap(h[c := WriteCell(h[c], k, w)], rank', v))
    decreases |path|
  {
    var h' := h[c := WriteCell(h[c], k, w)];
    if path == [] {
      assert [] + [k] == [k];
      WriteHere(h, rank, rank', c, k, w);
    } else {
      var r := v.ref;
      ChildBelow(h, rank, v, path[0]);
      var x := Child(h, v, path[0]).value;
      ResolveBelow(h, rank, x, path[1..]);
      assert r != c;
      assert x.Ptr? by { if path[1..] != [] { ChildBelow(h, rank, x, path[1..][0]); } }
      ChildAt(h, v, path[0]);
      WriteSnapshot(h, rank, rank', x, path[1..], c, k, w);
      SnapPtr(h, rank, r);
      assert OthersMiss(h, rank, h[r], path[0], c);
      WriteStep(h, rank, rank', r, path[0], path[1..] + [k], c, h'[c], x, Snap(h, rank, w));
      assert [path[0]] + (path[1..] + [k]) == path + [k];
    }
  }

  // ----- Reading the heap against reading the snapshot -----

  /** Reading a path on the heap and reading it in the snapshot agree. */
  lemma {:induction false} ResolveGet(h: Heap, rank: Ranks, v: Val, p: seq<Key>)
    requires Ranked(h, rank) && InHeap(h, v)
    ensures Resolve(h, v, p).Some? ==> InHeap(h, Resolve(h, v, p).value)
    ensures Resolve(h, v, p).Some? && Resolve(h, v, p).value != Undefined ==>
      Get(Snap(h, rank, v), p) == Some(Snap(h, rank, Resolve(h, v, p).value))
    ensures Get(Snap(h, rank, v), p).Some? ==>
      Resolve(h, v, p).Some? && Snap(h, rank, Resolve(h, v, p).value) == Get(Snap(h, rank, v), p).value
    decreases |p|
  {
    if Resolve(h, v, p).Some? { ResolveBelow(h, rank, v, p); }
    if p != [] && v.Ptr? {
      var r := v.ref;
      SnapPtr(h, rank, r);
      var q := p[1..];
      match (h[r], p[0])
      case (ObjCell(fs), Name(n)) =>
        var x := if n in fs then fs[n] else Undefined;
        assert Child(h, v, p[0]) == Some(x);
        ChildBelow(h, rank, v, p[0]);
        ResolveGet(h, rank, x, q);
        if x == Undefined {
          assert q != [] ==> Child(h, x, q[0]).None?;
        }
      case (ArrCell(items), Index(i)) =>
        var x := if i < |items| then items[i] else Undefined;
        assert Child(h, v, p[0]) == Some(x);
        ChildBelow(h, rank, v, p[0]);
        ResolveGet(h, rank, x, q);
        if x == Undefined {
          assert q != [] ==> Child(h, x, q[0]).None?;
        }
      case _ =>
    }
  }

  /** The assignment at the end of a walk can be made exactly when the snapshot has a container of the right kind there. */
  lemma WritableFits(h: Heap, rank: Ranks, x: Val, k: Key)
    requires Ranked(h, rank) && InHeap(h, x)
    ensures Writable(h, x, k) <==> Fits(Snap(h, rank, x), k)
  {
  }

  /** Walking all but the last step of `path` reaches a container the last step can be assigned in. */
  predicate WalkOk(h: Heap, v: Val, path: seq<Key>)
    requires |path| > 0
  {
    match Resolve(h, v, path[..|path| - 1])
    case None => false
    case Some(x) => Writable(h, x, path[|path| - 1])
  }

  /** A walk succeeds on the heap exactly when `Set` is defined on the snapshot. */
  lemma WalkOkIffSet(h: Heap, rank: Ranks, v: Val, path: seq<Key>, j: Json)
    requires Ranked(h, rank) && InHeap(h, v) && |path| > 0
    ensures WalkOk(h, v, path) <==> Set(Snap(h, rank, v), path, j).Some?
  {
    var prefix, last := path[..|path| - 1], path[|path| - 1];
    SetDefined(Snap(h, rank, v), path, j);
    ResolveGet(h, rank, v, prefix);
    match Resolve(h, v, prefix)
    case None =>
    case Some(x) =>
      WritableFits(h, rank, x, last);
  }

  /** The container a successful walk assigns into. */
  function Container(h: Heap, v: Val, path: seq<Key>): Ref
    requires |path| > 0 && WalkOk(h, v, path)
  {
    Resolve(h, v, path[..|path| - 1]).value.ref
  }

  /** Allocation does not change what an old cell reads as. */
  lemma CellSnapGrow(h: Heap, rank: Ranks, h': Heap, rank': Ranks, c: Cell)
    requires Ranked(h, rank) && Ranked(h', rank') && Grows(h, h')
    requires forall x :: x in Kids(c) ==> InHeap(h, x)
    ensures forall x :: x in Kids(c) ==> InHeap(h', x)
    ensures CellSnap(h', rank', c) == CellSnap(h, rank, c)
  {
    forall x | x in Kids(c) ensures InHeap(h', x) && Snap(h', rank', x) == Snap(h, rank, x) {
      SnapGrow(h, rank, h', rank', x);
    }
    CellSnapFrame(h, rank, h', rank', c);
  }

  /** A defined value is truthy exactly when its snapshot is. */
  lemma TruthySnap(h: Heap, rank: Ranks, x: Val)
    requires Ranked(h, rank) && InHeap(h, x) && x != Undefined
    ensures ValTruthy(x) <==> Truthy(Snap(h, rank, x))
  {
  }

  // ----- Tree-shaped values -----

  /** Every value `cell` holds is allocated. */
  ghost predicate KidsIn(h: Heap, cell: Cell) {
    forall x :: x in Kids(cell) ==> InHeap(h, x)
  }

  /** No cell is reached both from `x` and from `y`. */
  ghost predicate Apart(h: Heap, rank: Ranks, x: Val, y: Val)
    requires Ranked(h, rank) && InHeap(h, x) && InHeap(h, y)
  {
    forall t :: !(Reaches(h, rank, x, t) && Reaches(h, rank, y, t))
  }

  /** Distinct positions of `cell` hold values that share no cell. */
  ghost predicate Branches(h: Heap, rank: Ranks, cell: Cell)
    requires Ranked(h, rank) && KidsIn(h, cell)
  {
    forall k1, k2 :: k1 != k2 && At(cell, k1).Some? && At(cell, k2).Some? ==>
      (AtKid(cell, k1); AtKid(cell, k2); Apart(h, rank, At(cell, k1).value, At(cell, k2).value))
  }

  /**
   * `v` is a tree: in every container it reaches, distinct positions share no
   * cell, so each container is reached along one route only. A freshly parsed
   * document has this shape.
   */
  ghost predicate Tree(h: Heap, rank: Ranks, v: Val)
    requires Ranked(h, rank) && InHeap(h, v)
    decreases Height(rank, v)
  {
    v.Ptr? ==>
      (SnapPtr(h, rank, v.ref); Branches(h, rank, h[v.ref])) &&
      forall x :: x in Kids(h[v.ref]) ==> (KidBelow(h, rank, v, x); Tree(h, rank, x))
  }

  /** Every cell `v` reaches was allocated at or after `lo`. */
  ghost predicate Fresh(h: Heap, rank: Ranks, v: Val, lo: nat)
    requires Ranked(h, rank) && InHeap(h, v)
  {
    forall t :: Reaches(h, rank, v, t) ==> lo <= t
  }

  /** Every position of `cell` holds a tree of cells allocated at or after `lo`. */
  ghost predicate Grown(h: Heap, rank: Ranks, cell: Cell, lo: nat)
    requires Ranked(h, rank)
  {
    forall k :: At(cell, k).Some? ==>
      InHeap(h, At(cell, k).value) && Tree(h, rank, At(cell, k).value) && Fresh(h, rank, At(cell, k).value, lo)
  }

  /** Every value a cell holds sits at some position of it. */
  lemma KidAt(c: Cell, x: Val) returns (k: Key)
    requires x in Kids(c)
    ensures At(c, k) == Some(x)
  {
    match c
    case ObjCell(fs) =>
      var n :| n in fs && fs[n] == x;
      k := Name(n);
    case ArrCell(items) =>
      var i :| 0 <= i < |items| && items[i] == x;
      k := Index(i);
  }

  /** The positions of an array with one more element. */
  lemma AtAppend(xs: seq<Val>, w: Val)
    ensures At(ArrCell(xs + [w]), Index(|xs|)) == Some(w)
    ensures forall k2 :: k2 != Index(|xs|) ==> At(ArrCell(xs + [w]), k2) == At(ArrCell(xs), k2)
  {
  }

  /** The positions of an object with one property set. */
  lemma AtPut(fs: map<string, Val>, n: string, w: Val)
    ensures At(ObjCell(fs[n := w]), Name(n)) == Some(w)
    ensures forall k2 :: k2 != Name(n) ==> At(ObjCell(fs[n := w]), k2) == At(ObjCell(fs), k2)
  {
  }

  /** After `c[k] = w`, a position holds what it held before, `w`, or a hole. */
  lemma WriteCellAt(c: Cell, k: Key, w: Val, k2: Key)
    requires CellFits(c, k) && At(WriteCell(c, k, w), k2).Some?
    ensures At(WriteCell(c, k, w), k2) == At(c, k2) || At(WriteCell(c, k, w), k2).value in {w, Undefined}
    ensures k2 != k ==> At(WriteCell(c, k, w), k2) == At(c, k2) || At(WriteCell(c, k, w), k2) == Some(Undefined)
  {
  }

  /** In a tree, the path to a container is the only route to it. */
  lemma {:induction false} TreeOnlyPath(h: Heap, rank: Ranks, v: Val, path: seq<Key>, c: Ref)
    requires Ranked(h, rank) && InHeap(h, v) && Tree(h, rank, v) && Resolve(h, v, path) == Some(Ptr(c))
    ensures OnlyPath(h, rank, v, path, c)
    decreases |path|
  {
    if path != [] {
      ChildBelow(h, rank, v, path[0]);
      var x := Child(h, v, path[0]).value;
      ResolveBelow(h, rank, x, path[1..]);
      assert x.Ptr?;
      ChildAt(h, v, path[0]);
      var cell := h[v.ref];
      SnapPtr(h, rank, v.ref);
      forall k2 | k2 != path[0] && At(cell, k2).Some?
        ensures InHeap(h, At(cell, k2).value) && !Reaches(h, rank, At(cell, k2).value, c)
      {
        AtKid(cell, k2);
        assert Apart(h, rank, At(cell, path[0]).value, At(cell, k2).value);
      }
      assert x in Kids(cell);
      TreeOnlyPath(h, rank, x, path[1..], c);
    }
  }

  /** Allocation keeps two values apart. */
  lemma ApartGrow(h: Heap, rank: Ranks, h': Heap, rank': Ranks, x: Val, y: Val)
    requires Ranked(h, rank) && Ranked(h', rank') && Grows(h, h') && InHeap(h, x) && InHeap(h, y)
    requires Apart(h, rank, x, y)
    ensures InHeap(h', x) && InHeap(h', y) && Apart(h', rank', x, y)
  {
    SnapGrow(h, rank, h', rank', x);
    SnapGrow(h, rank, h', rank', y);
  }

  /** Allocation keeps a tree a tree. */
  lemma {:induction false} TreeGrow(h: Heap, rank: Ranks, h': Heap, rank': Ranks, v: Val)
    requires Ranked(h, rank) && Ranked(h', rank') && Grows(h, h') && InHeap(h, v) && Tree(h, rank, v)
    ensures InHeap(h', v) && Tree(h', rank', v)
    decreases Height(rank, v)
  {
    if v.Ptr? {
      var cell := h[v.ref];
      SnapPtr(h, rank, v.ref);
      SnapPtr(h', rank', v.ref);
      forall x | x in Kids(cell) ensures InHeap(h', x) && Tree(h', rank', x) {
        KidBelow(h, rank, v, x);
        TreeGrow(h, rank, h', rank', x);
      }
      forall k1, k2 | k1 != k2 && At(cell, k1).Some? && At(cell, k2).Some?
        ensures InHeap(h', At(cell, k1).value) && InHeap(h', At(cell, k2).value)
        ensures Apart(h', rank', At(cell, k1).value, At(cell, k2).value)
      {
        AtKid(cell, k1);
        AtKid(cell, k2);
        ApartGrow(h, rank, h', rank', At(cell, k1).value, At(cell, k2).value);
      }
    }
  }

  /** A shallow copy of a tree, allocated afresh, is a tree. */
  lemma TreeCopy(h: Heap, rank: Ranks, h': Heap, rank': Ranks, c0: Ref, t: Ref)
    requires Ranked(h, rank) && Ranked(h', rank') && c0 in h && t !in h && h' == h[t := h[c0]]
    requires Tree(h, rank, Ptr(c0))
    ensures Tree(h', rank', Ptr(t))
  {
    assert Grows(h, h');
    TreeGrow(h, rank, h', rank', Ptr(c0));
    SnapPtr(h', rank', t);
    forall x | x in Kids(h'[t]) ensures Tree(h', rank', x) {
      assert x in Kids(h'[c0]);
    }
  }

  /** Writing a value that holds no reference adds no route: what is reached afterwards was reached before. */
  lemma {:induction false} ReachesAfterScalar(h: Heap, rank: Ranks, rank': Ranks, c: Ref, k: Key, w: Val, x: Val, t: Ref)
    requires Ranked(h, rank) && c in h && CellFits(h[c], k) && !w.Ptr?
    requires Ranked(h[c := WriteCell(h[c], k, w)], rank') && InHeap(h, x)
    requires Reaches(h[c := WriteCell(h[c], k, w)], rank', x, t)
    ensures Reaches(h, rank, x, t)
    decreases Height(rank, x)
  {
    var h' := h[c := WriteCell(h[c], k, w)];
    if x.ref != t {
      var y :| y in Kids(h'[x.ref]) && Reaches(h', rank', y, t);
      assert y in Kids(h[x.ref]);
      KidBelow(h, rank, x, y);
      ReachesAfterScalar(h, rank, rank', c, k, w, y, t);
    }
  }

  /** Writing a value that holds no reference keeps every tree a tree. */
  lemma {:induction false} TreeAfterScalar(h: Heap, rank: Ranks, rank': Ranks, c: Ref, k: Key, w: Val, v: Val)
    requires Ranked(h, rank) && c in h && CellFits(h[c], k) && !w.Ptr?
    requires Ranked(h[c := WriteCell(h[c], k, w)], rank') && InHeap(h, v) && Tree(h, rank, v)
    ensures Tree(h[c := WriteCell(h[c], k, w)], rank', v)
    decreases Height(rank, v)
  {
    if v.Ptr? {
      var h' := h[c := WriteCell(h[c], k, w)];
      var r := v.ref;
      var cell, cell' := h[r], h'[r];
      SnapPtr(h, rank, r);
      SnapPtr(h', rank', r);
      forall k1, k2 | k1 != k2 && At(cell', k1).Some? && At(cell', k2).Some?
        ensures InHeap(h', At(cell', k1).value) && InHeap(h', At(cell', k2).value)
        ensures Apart(h', rank', At(cell', k1).value, At(cell', k2).value)
      {
        ApartAfterScalar(h, rank, rank', c, k, w, r, k1, k2);
      }
      forall x | x in Kids(cell') ensures Tree(h', rank', x) {
        if x.Ptr? {
          assert x in Kids(cell);
          KidBelow(h, rank, v, x);
          TreeAfterScalar(h, rank, rank', c, k, w, x);
        }
      }
    }
  }

  /** One pair of positions in `TreeAfterScalar`. */
  lemma ApartAfterScalar(h: Heap, rank: Ranks, rank': Ranks, c: Ref, k: Key, w: Val, r: Ref, k1: Key, k2: Key)
    requires Ranked(h, rank) && c in h && CellFits(h[c], k) && !w.Ptr?
    requires Ranked(h[c := WriteCell(h[c], k, w)], rank') && r in h && Tree(h, rank, Ptr(r))
    requires k1 != k2 && At(h[c := WriteCell(h[c], k, w)][r], k1).Some? && At(h[c := WriteCell(h[c], k, w)][r], k2).Some?
    ensures InHeap(h[c := WriteCell(h[c], k, w)], At(h[c := WriteCell(h[c], k, w)][r], k1).value)
    ensures InHeap(h[c := WriteCell(h[c], k, w)], At(h[c := WriteCell(h[c], k, w)][r], k2).value)
    ensures Apart(h[c := WriteCell(h[c], k, w)], rank', At(h[c := WriteCell(h[c], k, w)][r], k1).value, At(h[c := WriteCell(h[c], k, w)][r], k2).value)
  {
    var h' := h[c := WriteCell(h[c], k, w)];
    var cell, cell' := h[r], h'[r];
    SnapPtr(h', rank', r);
    AtKid(cell', k1);
    AtKid(cell', k2);
    var x1, x2 := At(cell', k1).value, At(cell', k2).value;
    if r == c {
      WriteCellAt(cell, k, w, k1);
      WriteCellAt(cell, k, w, k2);
    }
    forall t ensures !(Reaches(h', rank', x1, t) && Reaches(h', rank', x2, t)) {
      if Reaches(h', rank', x1, t) && Reaches(h', rank', x2, t) {
        assert At(cell, k1) == Some(x1) && At(cell, k2) == Some(x2);
        AtKid(cell, k1);
        AtKid(cell, k2);
        SnapPtr(h, rank, r);
        ReachesAfterScalar(h, rank, rank', c, k, w, x1, t);
        ReachesAfterScalar(h, rank, rank', c, k, w, x2, t);
        assert false;
      }
    }
  }

  /** Allocation keeps a cell's positions grown trees that share nothing. */
  lemma GrownGrow(h: Heap, rank: Ranks, h': Heap, rank': Ranks, cell: Cell, lo: nat)
    requires Ranked(h, rank) && Ranked(h', rank') && Grows(h, h')
    requires KidsIn(h, cell) && Grown(h, rank, cell, lo) && Branches(h, rank, cell)
    ensures KidsIn(h', cell) && Grown(h', rank', cell, lo) && Branches(h', rank', cell)
  {
    forall k2 | At(cell, k2).Some?
      ensures InHeap(h', At(cell, k2).value) && Tree(h', rank', At(cell, k2).value) && Fresh(h', rank', At(cell, k2).value, lo)
    {
      SnapGrow(h, rank, h', rank', At(cell, k2).value);
      TreeGrow(h, rank, h', rank', At(cell, k2).value);
    }
    forall k1, k2 | k1 != k2 && At(cell, k1).Some? && At(cell, k2).Some?
      ensures Apart(h', rank', At(cell, k1).value, At(cell, k2).value)
    {
      AtKid(cell, k1);
      AtKid(cell, k2);
      ApartGrow(h, rank, h', rank', At(cell, k1).value, At(cell, k2).value);
    }
  }

  /**
   * Putting at position `k` a tree `w` of cells allocated at or after `bound`,
   * where every older cell lies below `bound`, keeps the positions grown trees
   * that share nothing.
   */
  lemma GrownAdd(h: Heap, rank: Ranks, h': Heap, rank': Ranks, cell: Cell, cell': Cell, k: Key, w: Val, lo: nat, bound: nat)
    requires Ranked(h, rank) && Ranked(h', rank') && Grows(h, h') && lo <= bound
    requires forall r :: r in h ==> r < bound
    requires KidsIn(h, cell) && Grown(h, rank, cell, lo) && Branches(h, rank, cell)
    requires InHeap(h', w) && Tree(h', rank', w) && Fresh(h', rank', w, bound)
    requires At(cell', k) == Some(w) && forall k2 :: k2 != k ==> At(cell', k2) == At(cell, k2)
    ensures KidsIn(h', cell') && Grown(h', rank', cell', lo) && Branches(h', rank', cell')
  {
    GrownGrow(h, rank, h', rank', cell, lo);
    forall x | x in Kids(cell') ensures InHeap(h', x) {
      var k2 := KidAt(cell', x);
      if k2 != k { AtKid(cell, k2); }
    }
    forall k1, k2 | k1 != k2 && At(cell', k1).Some? && At(cell', k2).Some?
      ensures Apart(h', rank', At(cell', k1).value, At(cell', k2).value)
    {
      if k1 == k || k2 == k {
        var y := if k1 == k then At(cell, k2).value else At(cell, k1).value;
        AtKid(cell, if k1 == k then k2 else k1);
        SnapGrow(h, rank, h', rank', y);
        forall t: Ref | Reaches(h', rank', y, t) ensures t < bound {
          ReachesBelow(h, rank, y, t);
        }
      }
    }
  }

  /** A cell whose positions are grown trees sharing nothing makes a tree of cells allocated at or after `lo`. */
  lemma TreeOfCell(h: Heap, rank: Ranks, r: Ref, lo: nat)
    requires Ranked(h, rank) && r in h && lo <= r
    requires KidsIn(h, h[r]) && Grown(h, rank, h[r], lo) && Branches(h, rank, h[r])
    ensures Tree(h, rank, Ptr(r)) && Fresh(h, rank, Ptr(r), lo)
  {
    forall x | x in Kids(h[r]) ensures Tree(h, rank, x) && Fresh(h, rank, x, lo) {
      var k := KidAt(h[r], x);
    }
  }

  /**
   * A copy of a tree-shaped object with position `k` replaced by a tree `z` is a
   * tree, provided `z` reaches only what the replaced value reached and cells
   * allocated from `n0` on.
   */
  lemma TreeReplace(h: Heap, rank: Ranks, h': Heap, rank': Ranks, c0: Ref, t: Ref, k: Key, z: Val, n0: nat)
    requires Ranked(h, rank) && Ranked(h', rank') && Grows(h, h') && forall q :: q in h ==> q < n0
    requires c0 in h && Tree(h, rank, Ptr(c0)) && CellFits(h[c0], k)
    requires t in h' && h'[t] == WriteCell(h[c0], k, z) && InHeap(h', z) && Tree(h', rank', z)
    requires forall s: Ref :: Reaches(h', rank', z, s) ==>
      n0 <= s || (At(h[c0], k).Some? && InHeap(h, At(h[c0], k).value) && Reaches(h, rank, At(h[c0], k).value, s))
    ensures Tree(h', rank', Ptr(t))
  {
    var cell, cell' := h[c0], h'[t];
    SnapPtr(h, rank, c0);
    SnapPtr(h', rank', t);
    forall x | x in Kids(cell') ensures Tree(h', rank', x) {
      if x != z && x != Undefined {
        assert x in Kids(cell);
        TreeGrow(h, rank, h', rank', x);
      }
    }
    forall k1, k2 | k1 != k2 && At(cell', k1).Some? && At(cell', k2).Some?
      ensures Apart(h', rank', At(cell', k1).value, At(cell', k2).value)
    {
      WriteCellAt(cell, k, z, k1);
      WriteCellAt(cell, k, z, k2);
      AtKid(cell', k1);
      AtKid(cell', k2);
      if k1 == k {
        ReplacedApart(h, rank, h', rank', c0, k, z, n0, k2, At(cell', k2).value);
      } else if k2 == k {
        ReplacedApart(h, rank, h', rank', c0, k, z, n0, k1, At(cell', k1).value);
      } else if At(cell', k1) == At(cell, k1) && At(cell', k2) == At(cell, k2) {
        AtKid(cell, k1);
        AtKid(cell, k2);
        ApartGrow(h, rank, h', rank', At(cell, k1).value, At(cell, k2).value);
      }
    }
  }

  /** The replacing value `z` and the value `y` at another position `k2` share no cell. */
  lemma ReplacedApart(h: Heap, rank: Ranks, h': Heap, rank': Ranks, c0: Ref, k: Key, z: Val, n0: nat, k2: Key, y: Val)
    requires Ranked(h, rank) && Ranked(h', rank') && Grows(h, h') && forall q :: q in h ==> q < n0
    requires c0 in h && Tree(h, rank, Ptr(c0)) && InHeap(h', z) && k2 != k
    requires forall s: Ref :: Reaches(h', rank', z, s) ==>
      n0 <= s || (At(h[c0], k).Some? && InHeap(h, At(h[c0], k).value) && Reaches(h, rank, At(h[c0], k).value, s))
    requires At(h[c0], k2) == Some(y) || y == Undefined
    ensures InHeap(h', y) && Apart(h', rank', z, y) && Apart(h', rank', y, z)
  {
    if y != Undefined {
      var cell := h[c0];
      SnapPtr(h, rank, c0);
      AtKid(cell, k2);
      SnapGrow(h, rank, h', rank', y);
      forall s: Ref | Reaches(h', rank', y, s) ensures !Reaches(h', rank', z, s) {
        ReachesBelow(h, rank, y, s);
        if Reaches(h', rank', z, s) {
          assert false;
        }
      }
    }
  }

  /** A cell holding a value that misses `c` keeps missing `c`: so does the value. */
  lemma MissesViaKid(h: Heap, rank: Ranks, r: Ref, x: Val, c: Ref)
    requires Ranked(h, rank) && r in h && x in Kids(h[r]) && !Reaches(h, rank, Ptr(r), c)
    ensures InHeap(h, x) && !Reaches(h, rank, x, c)
  {
    KidBelow(h, rank, Ptr(r), x);
  }

  /** Reaching is transitive. */
  lemma {:induction false} ReachesTrans(h: Heap, rank: Ranks, v: Val, c: Ref, s: Ref)
    requires Ranked(h, rank) && InHeap(h, v) && c in h && Reaches(h, rank, v, c) && Reaches(h, rank, Ptr(c), s)
    ensures Reaches(h, rank, v, s)
    decreases Height(rank, v)
  {
    if v.ref != c {
      var y :| y in Kids(h[v.ref]) && Reaches(h, rank, y, c);
      KidBelow(h, rank, v, y);
      ReachesTrans(h, rank, y, c, s);
    }
  }

  /** Overwriting a cell that a tree does not reach leaves it a tree. */
  lemma {:induction false} TreeUnreached(h: Heap, rank: Ranks, c: Ref, x: Cell, rank': Ranks, v: Val)
    requires Ranked(h, rank) && Ranked(h[c := x], rank') && InHeap(h, v) && !Reaches(h, rank, v, c) && Tree(h, rank, v)
    ensures InHeap(h[c := x], v) && Tree(h[c := x], rank', v)
    decreases Height(rank, v)
  {
    SnapUnreached(h, rank, c, x, rank', v);
    if v.Ptr? {
      var h' := h[c := x];
      var r := v.ref;
      var cell := h[r];
      assert h'[r] == cell;
      SnapPtr(h, rank, r);
      SnapPtr(h', rank', r);
      forall y | y in Kids(cell) ensures Tree(h', rank', y) {
        MissesViaKid(h, rank, r, y, c);
        TreeUnreached(h, rank, c, x, rank', y);
      }
      forall k1, k2 | k1 != k2 && At(cell, k1).Some? && At(cell, k2).Some?
        ensures Apart(h', rank', At(cell, k1).value, At(cell, k2).value)
      {
        AtKid(cell, k1);
        AtKid(cell, k2);
        MissesViaKid(h, rank, r, At(cell, k1).value, c);
        MissesViaKid(h, rank, r, At(cell, k2).value, c);
        ApartUnreached(h, rank, c, x, rank', At(cell, k1).value, At(cell, k2).value);
      }
    }
  }

  /** Overwriting a cell that neither of two values reaches keeps them apart. */
  lemma ApartUnreached(h: Heap, rank: Ranks, c: Ref, x: Cell, rank': Ranks, y1: Val, y2: Val)
    requires Ranked(h, rank) && Ranked(h[c := x], rank') && InHeap(h, y1) && InHeap(h, y2)
    requires !Reaches(h, rank, y1, c) && !Reaches(h, rank, y2, c) && Apart(h, rank, y1, y2)
    ensures InHeap(h[c := x], y1) && InHeap(h[c := x], y2) && Apart(h[c := x], rank', y1, y2)
  {
    SnapUnreached(h, rank, c, x, rank', y1);
    SnapUnreached(h, rank, c, x, rank', y2);
    var h' := h[c := x];
    forall t: Ref ensures !(Reaches(h', rank', y1, t) && Reaches(h', rank', y2, t)) {
      assert !(Reaches(h, rank, y1, t) && Reaches(h, rank, y2, t));
    }
  }

  /** Whatever `z` shares with `v` is reached from the value that position `k` of cell `c` holds. */
  ghost predicate SharesOnlyDisplaced(h: Heap, rank: Ranks, v: Val, c: Ref, k: Key, z: Val)
    requires Ranked(h, rank) && InHeap(h, v) && InHeap(h, z) && c in h
  {
    forall s: Ref :: Reaches(h, rank, z, s) && Reaches(h, rank, v, s) ==>
      At(h[c], k).Some? &&
      (AtKid(h[c], k); KidBelow(h, rank, Ptr(c), At(h[c], k).value); Reaches(h, rank, At(h[c], k).value, s))
  }

  /**
   * Writing a tree `z` in place at position `k` of cell `c` keeps a tree `v` a
   * tree, provided `z` does not lead back to `c` and shares with `v` only what
   * the overwritten value reached; afterwards `v` reaches only what it reached
   * before and what `z` reaches.
   */
  lemma {:induction false} TreeAfterWrite(h: Heap, rank: Ranks, rank': Ranks, c: Ref, k: Key, z: Val, v: Val)
    requires Ranked(h, rank) && c in h && CellFits(h[c], k) && InHeap(h, z) && Tree(h, rank, z) && !Reaches(h, rank, z, c)
    requires Ranked(h[c := WriteCell(h[c], k, z)], rank') && InHeap(h, v) && Tree(h, rank, v)
    requires SharesOnlyDisplaced(h, rank, v, c, k, z)
    ensures InHeap(h[c := WriteCell(h[c], k, z)], v) && Tree(h[c := WriteCell(h[c], k, z)], rank', v)
    ensures forall s: Ref :: Reaches(h[c := WriteCell(h[c], k, z)], rank', v, s) ==> Reaches(h, rank, v, s) || Reaches(h, rank, z, s)
    decreases Height(rank, v)
  {
    var x' := WriteCell(h[c], k, z);
    var h' := h[c := x'];
    if !Reaches(h, rank, v, c) {
      SnapUnreached(h, rank, c, x', rank', v);
      TreeUnreached(h, rank, c, x', rank', v);
    } else {
      var r := v.ref;
      var cell, cell' := h[r], h'[r];
      SnapUnreached(h, rank, c, x', rank', z);
      TreeUnreached(h, rank, c, x', rank', z);
      SnapPtr(h, rank, r);
      SnapPtr(h', rank', r);
      forall x | x in Kids(cell')
        ensures InHeap(h, x) && InHeap(h', x) && Tree(h', rank', x)
        ensures forall s: Ref :: Reaches(h', rank', x, s) ==> Reaches(h, rank, x, s) || Reaches(h, rank, z, s)
      {
        if r == c {
          if x != z && x != Undefined {
            NoCycle(h, rank, c, x);
            SnapUnreached(h, rank, c, x', rank', x);
            TreeUnreached(h, rank, c, x', rank', x);
          }
        } else {
          assert x in Kids(cell);
          KidBelow(h, rank, v, x);
          forall s: Ref | Reaches(h, rank, z, s) && Reaches(h, rank, x, s)
            ensures At(h[c], k).Some? && InHeap(h, At(h[c], k).value) && Reaches(h, rank, At(h[c], k).value, s)
          {
            ReachesViaKid(h, rank, r, x, s);
            AtKid(h[c], k);
            KidBelow(h, rank, Ptr(c), At(h[c], k).value);
          }
          TreeAfterWrite(h, rank, rank', c, k, z, x);
        }
      }
      forall k1, k2 | k1 != k2 && At(cell', k1).Some? && At(cell', k2).Some?
        ensures Apart(h', rank', At(cell', k1).value, At(cell', k2).value)
      {
        AtKid(cell', k1);
        AtKid(cell', k2);
        if r == c {
          WrittenApart(h, rank, rank', c, k, z, k1, k2);
        } else {
          DeepApart(h, rank, rank', c, k, z, r, k1, k2);
        }
      }
      forall s: Ref | Reaches(h', rank', v, s) ensures Reaches(h, rank, v, s) || Reaches(h, rank, z, s) {
        if s != r {
          var x :| x in Kids(cell') && Reaches(h', rank', x, s);
          if r != c || (x != z && x != Undefined) {
            assert x in Kids(cell);
            if Reaches(h, rank, x, s) { ReachesViaKid(h, rank, r, x, s); }
          }
        }
      }
    }
  }

  /** Two positions of the written cell itself hold values that share no cell. */
  lemma WrittenApart(h: Heap, rank: Ranks, rank': Ranks, c: Ref, k: Key, z: Val, k1: Key, k2: Key)
    requires Ranked(h, rank) && c in h && CellFits(h[c], k) && InHeap(h, z) && !Reaches(h, rank, z, c)
    requires Ranked(h[c := WriteCell(h[c], k, z)], rank') && Tree(h, rank, Ptr(c))
    requires SharesOnlyDisplaced(h, rank, Ptr(c), c, k, z)
    requires k1 != k2 && At(WriteCell(h[c], k, z), k1).Some? && At(WriteCell(h[c], k, z), k2).Some?
    ensures InHeap(h[c := WriteCell(h[c], k, z)], At(WriteCell(h[c], k, z), k1).value)
    ensures InHeap(h[c := WriteCell(h[c], k, z)], At(WriteCell(h[c], k, z), k2).value)
    ensures Apart(h[c := WriteCell(h[c], k, z)], rank', At(WriteCell(h[c], k, z), k1).value, At(WriteCell(h[c], k, z), k2).value)
  {
    var cell, cell' := h[c], WriteCell(h[c], k, z);
    var h' := h[c := cell'];
    SnapPtr(h, rank, c);
    SnapPtr(h', rank', c);
    AtKid(cell', k1);
    AtKid(cell', k2);
    WriteCellAt(cell, k, z, k1);
    WriteCellAt(cell, k, z, k2);
    var x1, x2 := At(cell', k1).value, At(cell', k2).value;
    SnapUnreached(h, rank, c, cell', rank', z);
    if k1 != k && k2 != k {
      if x1.Ptr? && x2.Ptr? {
        AtKid(cell, k1);
        AtKid(cell, k2);
        NoCycle(h, rank, c, x1);
        NoCycle(h, rank, c, x2);
        ApartUnreached(h, rank, c, cell', rank', x1, x2);
      }
    } else {
      var (ko, y) := if k1 == k then (k2, x2) else (k1, x1);
      if y.Ptr? {
        assert At(cell, ko) == Some(y);
        AtKid(cell, ko);
        NoCycle(h, rank, c, y);
        SnapUnreached(h, rank, c, cell', rank', y);
        forall s: Ref | Reaches(h', rank', y, s) ensures !Reaches(h', rank', z, s) {
          assert Reaches(h, rank, y, s);
          if Reaches(h, rank, z, s) {
            ReachesViaKid(h, rank, c, y, s);
            assert false;
          }
        }
      }
    }
  }

  /** Two positions of a cell above the written one hold values that share no cell. */
  lemma DeepApart(h: Heap, rank: Ranks, rank': Ranks, c: Ref, k: Key, z: Val, r: Ref, k1: Key, k2: Key)
    requires Ranked(h, rank) && c in h && CellFits(h[c], k) && InHeap(h, z) && !Reaches(h, rank, z, c)
    requires Ranked(h[c := WriteCell(h[c], k, z)], rank') && r in h && r != c && Tree(h, rank, Ptr(r))
    requires SharesOnlyDisplaced(h, rank, Ptr(r), c, k, z)
    requires k1 != k2 && At(h[r], k1).Some? && At(h[r], k2).Some?
    requires forall x :: x in Kids(h[r]) ==>
      InHeap(h, x) && forall s: Ref :: Reaches(h[c := WriteCell(h[c], k, z)], rank', x, s) ==> Reaches(h, rank, x, s) || Reaches(h, rank, z, s)
    ensures InHeap(h, At(h[r], k1).value) && InHeap(h, At(h[r], k2).value)
    ensures Apart(h[c := WriteCell(h[c], k, z)], rank', At(h[r], k1).value, At(h[r], k2).value)
  {
    var cell, cell' := h[r], WriteCell(h[c], k, z);
    var h' := h[c := cell'];
    SnapPtr(h, rank, r);
    AtKid(cell, k1);
    AtKid(cell, k2);
    var x1, x2 := At(cell, k1).value, At(cell, k2).value;
    forall s: Ref ensures !(Reaches(h', rank', x1, s) && Reaches(h', rank', x2, s)) {
      if Reaches(h', rank', x1, s) && Reaches(h', rank', x2, s) {
        if !Reaches(h, rank, x1, c) { SnapUnreached(h, rank, c, cell', rank', x1); }
        if !Reaches(h, rank, x2, c) { SnapUnreached(h, rank, c, cell', rank', x2); }
        var o1, o2 := Reaches(h, rank, x1, s), Reaches(h, rank, x2, s);
        if !o1 && o2 {
          ReachesViaKid(h, rank, r, x2, s);
          AtKid(h[c], k);
          ReachesViaKid(h, rank, c, At(h[c], k).value, s);
          ReachesTrans(h, rank, x1, c, s);
        } else if o1 && !o2 {
          ReachesViaKid(h, rank, r, x1, s);
          AtKid(h[c], k);
          ReachesViaKid(h, rank, c, At(h[c], k).value, s);
          ReachesTrans(h, rank, x2, c, s);
        }
        assert false;
      }
    }
  }

  /** A cell that is not allocated is reached from nowhere. */
  lemma {:induction false} Unreached(h: Heap, rank: Ranks, v: Val, t: Ref)
    requires Ranked(h, rank) && InHeap(h, v) && t !in h
    ensures !Reaches(h, rank, v, t)
    decreases Height(rank, v)
  {
    if v.Ptr? {
      forall x | x in Kids(h[v.ref]) ensures !Reaches(h, rank, x, t) {
        KidBelow(h, rank, v, x);
        Unreached(h, rank, x, t);
      }
    }
  }

  /** What a path inside a tree leads to is a tree. */
  lemma {:induction false} TreeResolve(h: Heap, rank: Ranks, v: Val, p: seq<Key>)
    requires Ranked(h, rank) && InHeap(h, v) && Tree(h, rank, v) && Resolve(h, v, p).Some?
    ensures InHeap(h, Resolve(h, v, p).value) && Tree(h, rank, Resolve(h, v, p).value)
    decreases |p|
  {
    ResolveBelow(h, rank, v, p);
    if p != [] {
      ChildBelow(h, rank, v, p[0]);
      TreeResolve(h, rank, Child(h, v, p[0]).value, p[1..]);
    }
  }
}
