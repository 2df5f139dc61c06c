/**
 * The two ways of following a key path through live objects: walking a cursor
 * down it (what both in-place writers do), and rebuilding every container on it
 * so that nothing already allocated changes (the copy-on-write update the
 * in-place writers are measured against).
 */
module PathWalk {
  import opened Options
  import opened Json
  import opened JsHeap
  import opened JsMemory

  /** Moves a cursor from `start` through `keys`, one property read at a time; None where a read fails. */
  method Walk(mem: Memory, start: Val, keys: seq<Key>) returns (found: Option<Val>)
    requires mem.Valid() && InHeap(mem.heap, start)
    ensures found == Resolve(mem.heap, start, keys)
    ensures found.Some? ==> InHeap(mem.heap, found.value)
  {
    var current := start;
    var i := 0;
    while i < |keys|
      invariant 0 <= i <= |keys|
      invariant Resolve(mem.heap, start, keys[..i]) == Some(current)
      invariant InHeap(mem.heap, current)
    {
      ResolveAppend(mem.heap, start, keys[..i], [keys[i]]);
      assert keys[..i] + [keys[i]] == keys[..i + 1];
      match Child(mem.heap, current, keys[i])
      case None =>
        ResolveAppend(mem.heap, start, keys[..i + 1], keys[i + 1..]);
        assert keys[..i + 1] + keys[i + 1..] == keys;
        return None;
      case Some(next) =>
        ChildBelow(mem.heap, mem.rank, current, keys[i]);
        current := next;
        i := i + 1;
    }
    assert keys[..i] == keys;
    found := Some(current);
  }

  /**
   * Sets `path` to `value` under `start` by allocating a fresh copy of every
   * container on the path; no cell that existed before changes.
   */
  method CopyWrite(mem: Memory, start: Val, path: seq<Key>, value: Val) returns (thrown: bool, root: Val)
    requires mem.Valid() && InHeap(mem.heap, start) && InHeap(mem.heap, value) && |path| > 0
    modifies mem
    ensures mem.Valid() && Grows(old(mem.heap), mem.heap)
    ensures thrown == !WalkOk(old(mem.heap), start, path)
    ensures thrown == Set(old(mem.Snapshot(start)), path, old(mem.Snapshot(value))).None?
    ensures thrown ==> mem.heap == old(mem.heap)
    ensures !thrown ==> root.Ptr? && root.ref in mem.heap && root.ref !in old(mem.heap)
    ensures !thrown ==> start.Ptr? && mem.heap[root.ref].ObjCell? == old(mem.heap)[start.ref].ObjCell?
    ensures !thrown ==> Resolve(mem.heap, root, path) == Some(value)
    ensures !thrown && value != Undefined ==>
      Set(old(mem.Snapshot(start)), path, old(mem.Snapshot(value))) == Some(mem.Snapshot(root))
  {
    ghost var h, rank := mem.heap, mem.rank;
    WalkOkIffSet(h, rank, start, path, Snap(h, rank, value));
    var prefix, last := path[..|path| - 1], path[|path| - 1];
    assert path == prefix + [last];
    var found := Walk(mem, start, prefix);
    root := start;
    if found.None? || !Writable(mem.heap, found.value, last) {
      return true, root;
    }
    thrown := false;
    var chain := Containers(mem, start, prefix);
    assert prefix[..|prefix|] == prefix && prefix[..0] == [];
    root := CopyUp(mem, chain, path, value);
  }

  /**
   * Allocates the copies bottom-up: the last container with the last key set to
   * `value`, then each container above it with its key pointing at the copy below.
   */
  method CopyUp(mem: Memory, chain: seq<Ref>, path: seq<Key>, value: Val) returns (root: Val)
    requires mem.Valid() && |path| > 0 && |chain| == |path| && InHeap(mem.heap, value)
    requires forall m :: 0 <= m < |path| ==> chain[m] in mem.heap
    requires forall m :: 0 <= m < |path| - 1 ==> Child(mem.heap, Ptr(chain[m]), path[m]) == Some(Ptr(chain[m + 1]))
    requires Writable(mem.heap, Ptr(chain[|path| - 1]), path[|path| - 1])
    modifies mem
    ensures mem.Valid() && Grows(old(mem.heap), mem.heap)
    ensures root.Ptr? && root.ref in mem.heap && root.ref !in old(mem.heap)
    ensures mem.heap[root.ref].ObjCell? == old(mem.heap)[chain[0]].ObjCell?
    ensures Resolve(mem.heap, root, path) == Some(value)
    ensures value != Undefined ==>
      Set(old(mem.Snapshot(Ptr(chain[0]))), path, old(mem.Snapshot(value))) == Some(mem.Snapshot(root))
  {
    ghost var h, rank := mem.heap, mem.rank;
    var sv := Snap(h, rank, value);
    var j := |path| - 1;
    root := CopyBottom(mem, chain[j], path[j], value);
    assert path[j..] == [path[j]];
    while j > 0
      invariant 0 <= j < |path|
      invariant mem.Valid() && Grows(h, mem.heap)
      invariant root.Ptr? && root.ref in mem.heap && root.ref !in h
      invariant mem.heap[root.ref].ObjCell? == h[chain[j]].ObjCell?
      invariant Resolve(mem.heap, root, path[j..]) == Some(value)
      invariant value != Undefined ==> Set(Snap(h, rank, Ptr(chain[j])), path[j..], sv) == Some(Snap(mem.heap, mem.rank, root))
    {
      j := j - 1;
      root := CopyAbove(mem, chain[j], chain[j + 1], path[j], root, h, rank, path[j + 1..], value, sv);
      assert path[j..] == [path[j]] + path[j + 1..];
    }
    assert path[0..] == path;
  }

  /** The first copy: a fresh copy of container `c` with `k` set to `value`. */
  method CopyBottom(mem: Memory, c: Ref, k: Key, value: Val) returns (root: Val)
    requires mem.Valid() && Writable(mem.heap, Ptr(c), k) && InHeap(mem.heap, value)
    modifies mem
    ensures mem.Valid() && Grows(old(mem.heap), mem.heap)
    ensures root.Ptr? && root.ref in mem.heap && root.ref !in old(mem.heap)
    ensures mem.heap[root.ref].ObjCell? == old(mem.heap)[c].ObjCell?
    ensures Resolve(mem.heap, root, [k]) == Some(value)
    ensures value != Undefined ==>
      Set(old(mem.Snapshot(Ptr(c))), [k], old(mem.Snapshot(value))) == Some(mem.Snapshot(root))
  {
    ghost var h, rank := mem.heap, mem.rank;
    KidsInHeap(h, rank, h, c, k, value);
    var r := mem.Alloc(WriteCell(mem.heap[c], k, value));
    root := Ptr(r);
    SnapGrow(h, rank, mem.heap, mem.rank, value);
    assert Child(mem.heap, root, k) == Some(value);
    if value != Undefined {
      BottomCopy(h, rank, mem.heap, mem.rank, c, r, k, value);
    }
  }

  /** One step up: a fresh copy of old container `a` whose key `k` leads to the copy `below` of its child `b`. */
  method CopyAbove(mem: Memory, a: Ref, b: Ref, k: Key, below: Val,
                   ghost h: Heap, ghost rank: Ranks, ghost rest: seq<Key>, ghost value: Val, ghost sv: Json) returns (root: Val)
    requires mem.Valid() && Ranked(h, rank) && Grows(h, mem.heap)
    requires a in h && b in h && Child(h, Ptr(a), k) == Some(Ptr(b))
    requires below.Ptr? && below.ref in mem.heap && below.ref !in h && |rest| > 0
    requires InHeap(h, value) && Resolve(mem.heap, below, rest) == Some(value)
    requires value != Undefined ==> Set(Snap(h, rank, Ptr(b)), rest, sv) == Some(Snap(mem.heap, mem.rank, below))
    modifies mem
    ensures mem.Valid() && Grows(h, mem.heap)
    ensures root.Ptr? && root.ref in mem.heap && root.ref !in h
    ensures mem.heap[root.ref].ObjCell? == h[a].ObjCell?
    ensures Resolve(mem.heap, root, [k] + rest) == Some(value)
    ensures value != Undefined ==> Set(Snap(h, rank, Ptr(a)), [k] + rest, sv) == Some(Snap(mem.heap, mem.rank, root))
  {
    ghost var h1, rank1 := mem.heap, mem.rank;
    ChildFits(h, Ptr(a), k);
    KidsInHeap(h, rank, h1, a, k, below);
    var r := mem.Alloc(WriteCell(mem.heap[a], k, below));
    root := Ptr(r);
    SnapGrow(h, rank, h1, rank1, value);
    UpperCopy(h, rank, h1, rank1, mem.heap, mem.rank, a, b, k, below, r, rest, value, sv);
  }

  /**
   * The containers a walk along `keys` passes through: `chain[m]` is the one
   * `keys[..m]` leads to, ending with the one `keys` leads to.
   */
  method Containers(mem: Memory, start: Val, keys: seq<Key>) returns (chain: seq<Ref>)
    requires mem.Valid() && InHeap(mem.heap, start)
    requires Resolve(mem.heap, start, keys).Some? && Resolve(mem.heap, start, keys).value.Ptr?
    ensures |chain| == |keys| + 1
    ensures forall m :: 0 <= m <= |keys| ==> chain[m] in mem.heap && Resolve(mem.heap, start, keys[..m]) == Some(Ptr(chain[m]))
    ensures forall m :: 0 <= m < |keys| ==> Child(mem.heap, Ptr(chain[m]), keys[m]) == Some(Ptr(chain[m + 1]))
  {
    ghost var h := mem.heap;
    chain := [];
    var current := start;
    var i := 0;
    while i < |keys|
      invariant 0 <= i <= |keys| && |chain| == i
      invariant Resolve(h, start, keys[..i]) == Some(current) && InHeap(h, current)
      invariant forall m :: 0 <= m < i ==> chain[m] in h && Resolve(h, start, keys[..m]) == Some(Ptr(chain[m]))
      invariant forall m :: 0 <= m < i - 1 ==> Child(h, Ptr(chain[m]), keys[m]) == Some(Ptr(chain[m + 1]))
      invariant i > 0 ==> Child(h, Ptr(chain[i - 1]), keys[i - 1]) == Some(current)
    {
      ResolveAppend(h, start, keys[..i], keys[i..]);
      assert keys[..i] + keys[i..] == keys;
      ResolveAppend(h, start, keys[..i], [keys[i]]);
      assert keys[..i] + [keys[i]] == keys[..i + 1];
      var next := Child(mem.heap, current, keys[i]);
      ChildBelow(h, mem.rank, current, keys[i]);
      chain := chain + [current.ref];
      current := next.value;
      i := i + 1;
    }
    assert keys[..i] == keys;
    chain := chain + [current.ref];
  }

  /** Every element of an updated copy of an old container is allocated. */
  lemma KidsInHeap(h: Heap, rank: Ranks, h1: Heap, a: Ref, k: Key, w: Val)
    requires Ranked(h, rank) && Grows(h, h1) && a in h && CellFits(h[a], k) && InHeap(h1, w)
    ensures forall x :: x in Kids(WriteCell(h[a], k, w)) ==> InHeap(h1, x)
  {
    forall x | x in Kids(WriteCell(h[a], k, w)) ensures InHeap(h1, x) {
      if x in Kids(h[a]) { KidBelow(h, rank, Ptr(a), x); }
    }
  }

  /** A fresh copy of old container `a` with `k` set to `w` reads as the one-step `Set` of `a`'s document. */
  lemma BottomCopy(h: Heap, rank: Ranks, hh: Heap, rr: Ranks, a: Ref, r: Ref, k: Key, w: Val)
    requires Ranked(h, rank) && Ranked(hh, rr) && Grows(h, hh)
    requires a in h && CellFits(h[a], k) && r in hh && hh[r] == WriteCell(h[a], k, w)
    requires InHeap(hh, w) && w != Undefined
    ensures Set(Snap(h, rank, Ptr(a)), [k], Snap(hh, rr, w)) == Some(Snap(hh, rr, Ptr(r)))
  {
    SnapPtr(h, rank, a);
    SnapPtr(hh, rr, r);
    KidsInHeap(h, rank, hh, a, k, w);
    forall x | x in Kids(h[a]) ensures InHeap(h, x) && InHeap(hh, x) && Snap(hh, rr, x) == Snap(h, rank, x) {
      SnapGrow(h, rank, hh, rr, x);
    }
    CellSnapFrame(h, rank, hh, rr, h[a]);
    CellSnapWrite(hh, rr, h[a], k, w);
  }

  /** One more container copied on the way up keeps the copy reading as `Set` of the original. */
  lemma UpperCopy(h: Heap, rank: Ranks, h1: Heap, rank1: Ranks, h2: Heap, rank2: Ranks,
                  a: Ref, b: Ref, k: Key, below: Val, r: Ref, rest: seq<Key>, value: Val, sv: Json)
    requires Ranked(h, rank) && Ranked(h1, rank1) && Ranked(h2, rank2)
    requires Grows(h, h1) && r !in h1 && a in h && b in h && CellFits(h[a], k)
    requires h2 == h1[r := WriteCell(h[a], k, below)]
    requires Child(h, Ptr(a), k) == Some(Ptr(b)) && below.Ptr? && below.ref in h1 && |rest| > 0
    requires InHeap(h1, value) && Resolve(h1, below, rest) == Some(value)
    requires value != Undefined ==> Set(Snap(h, rank, Ptr(b)), rest, sv) == Some(Snap(h1, rank1, below))
    ensures Resolve(h2, Ptr(r), [k] + rest) == Some(value)
    ensures value != Undefined ==> Set(Snap(h, rank, Ptr(a)), [k] + rest, sv) == Some(Snap(h2, rank2, Ptr(r)))
  {
    assert Grows(h1, h2);
    assert Child(h2, Ptr(r), k) == Some(below);
    assert ([k] + rest)[0] == k && ([k] + rest)[1..] == rest;
    ResolveGrow(h1, rank1, h2, below, rest);
    if value != Undefined {
      assert Resolve(h, Ptr(a), [k]) == Some(Ptr(b));
      ResolveGet(h, rank, Ptr(a), [k]);
      SetCons(Snap(h, rank, Ptr(a)), k, rest, sv);
      SnapGrow(h1, rank1, h2, rank2, below);
      assert Grows(h, h2);
      BottomCopy(h, rank, h2, rank2, a, r, k, below);
    }
  }
}
