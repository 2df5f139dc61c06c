/**
 * The running program's memory: the heap of objects and arrays, the next free
 * reference, and (as ghost state) the ranks that show the heap is acyclic.
 * Allocation and the single in-place assignment `c[k] = w` are its only changes.
 */
module JsMemory {
  import opened Json
  import opened JsHeap

  class Memory {
    var heap: Heap
    ghost var rank: Ranks
    ghost var bound: nat
    var next: Ref

    ghost predicate Valid()
      reads this
    {
      Ranked(heap, rank) &&
      (forall r :: r in heap ==> r < next) &&
      (forall r :: r in rank ==> rank[r] < bound)
    }

    constructor ()
      ensures Valid() && heap == map[] && next == 0
    {
      heap, rank, bound, next := map[], map[], 0, 0;
    }

    /** `JSON.stringify(v)` in the current heap. */
    function Snapshot(v: Val): Json
      reads this
      requires Valid() && InHeap(heap, v)
    {
      Snap(heap, rank, v)
    }

    /** A new object or array with contents `c`. */
    method Alloc(c: Cell) returns (r: Ref)
      requires Valid() && forall x :: x in Kids(c) ==> InHeap(heap, x)
      modifies this
      ensures Valid() && r == old(next) && r !in old(heap)
      ensures heap == old(heap)[r := c] && next == old(next) + 1
      ensures Grows(old(heap), heap)
    {
      r := next;
      assert CellBelow(heap, rank, c, bound) by {
        forall x | x in Kids(c) ensures ValBelow(heap, rank, x, bound) { }
      }
      RankedAlloc(heap, rank, r, c, bound);
      heap := heap[r := c];
      rank := rank[r := bound];
      bound := bound + 1;
      next := next + 1;
    }

    /** `c[k] = w`, for a `w` that does not contain `c`; every other holder of `c` sees the change. */
    method Write(c: Ref, k: Key, w: Val)
      requires Valid() && c in heap && CellFits(heap[c], k) && InHeap(heap, w)
      requires !Reaches(heap, rank, w, c)
      modifies this
      ensures Valid() && next == old(next)
      ensures heap == old(heap)[c := WriteCell(old(heap)[c], k, w)]
    {
      RankedWrite(heap, rank, c, k, w, bound);
      rank := Rerank(heap, rank, c, bound);
      heap := heap[c := WriteCell(heap[c], k, w)];
      bound := bound + bound;
    }

    /** Builds fresh objects and arrays for a parsed document, as `JSON.parse` does. */
    method AllocJson(j: Json) returns (v: Val)
      requires Valid()
      modifies this
      ensures Valid() && Grows(old(heap), heap) && old(next) <= next
      ensures InHeap(heap, v) && v != Undefined && Snap(heap, rank, v) == j
      ensures v.Ptr? ==> Undefined !in Kids(heap[v.ref])
      ensures Tree(heap, rank, v) && Fresh(heap, rank, v, old(next))
      decreases j, 1
    {
      match j
      case JNull => v := Null;
      case JBool(b) => v := Bool(b);
      case JNumber(n) => v := Num(n);
      case JString(s) => v := Str(s);
      case JArray(_) => v := AllocArray(j);
      case JObject(_) => v := AllocObject(j);
    }

    /** A fresh array holding fresh copies of the elements of `j`. */
    method AllocArray(j: Json) returns (v: Val)
      requires Valid() && j.JArray?
      modifies this
      ensures Valid() && Grows(old(heap), heap) && old(next) <= next
      ensures InHeap(heap, v) && v != Undefined && Snap(heap, rank, v) == j
      ensures v.Ptr? ==> Undefined !in Kids(heap[v.ref])
      ensures Tree(heap, rank, v) && Fresh(heap, rank, v, old(next))
      decreases j, 0
    {
      var items := j.items;
      var vals: seq<Val> := [];
      var i := 0;
      while i < |items|
        invariant 0 <= i <= |items| && |vals| == i
        invariant Valid() && Grows(old(heap), heap) && old(next) <= next
        invariant forall m :: 0 <= m < i ==> InHeap(heap, vals[m]) && vals[m] != Undefined
        invariant forall m :: 0 <= m < i ==> Snap(heap, rank, vals[m]) == items[m]
        invariant KidsIn(heap, ArrCell(vals)) && Grown(heap, rank, ArrCell(vals), old(next)) && Branches(heap, rank, ArrCell(vals))
      {
        ghost var h0, r0, n0 := heap, rank, next;
        var w := AllocJson(items[i]);
        AtAppend(vals, w);
        GrownAdd(h0, r0, heap, rank, ArrCell(vals), ArrCell(vals + [w]), Index(|vals|), w, old(next), n0);
        forall m | 0 <= m < i ensures InHeap(heap, vals[m]) && Snap(heap, rank, vals[m]) == items[m] {
          SnapGrow(h0, r0, heap, rank, vals[m]);
        }
        vals := vals + [w];
        i := i + 1;
      }
      ghost var h1, r1 := heap, rank;
      assert forall x :: x in Kids(ArrCell(vals)) ==> InHeap(heap, x);
      var r := Alloc(ArrCell(vals));
      v := Ptr(r);
      GrownGrow(h1, r1, heap, rank, ArrCell(vals), old(next));
      TreeOfCell(heap, rank, r, old(next));
      forall m | 0 <= m < |vals| ensures Snap(heap, rank, vals[m]) == items[m] {
        SnapGrow(h1, r1, heap, rank, vals[m]);
      }
      SnapPtr(heap, rank, r);
      assert Snap(heap, rank, v).items == items;
    }

    /** A fresh object holding fresh copies of the fields of `j`. */
    method AllocObject(j: Json) returns (v: Val)
      requires Valid() && j.JObject?
      modifies this
      ensures Valid() && Grows(old(heap), heap) && old(next) <= next
      ensures InHeap(heap, v) && v != Undefined && Snap(heap, rank, v) == j
      ensures v.Ptr? ==> Undefined !in Kids(heap[v.ref])
      ensures Tree(heap, rank, v) && Fresh(heap, rank, v, old(next))
      decreases j, 0
    {
      var fs := j.fields;
      var fields: map<string, Val> := map[];
      var rest := fs.Keys;
      while rest != {}
        invariant rest <= fs.Keys && fields.Keys == fs.Keys - rest
        invariant Valid() && Grows(old(heap), heap) && old(next) <= next
        invariant forall n :: n in fields ==> InHeap(heap, fields[n]) && fields[n] != Undefined
        invariant forall n :: n in fields ==> Snap(heap, rank, fields[n]) == fs[n]
        invariant KidsIn(heap, ObjCell(fields)) && Grown(heap, rank, ObjCell(fields), old(next)) && Branches(heap, rank, ObjCell(fields))
        decreases rest
      {
        var n :| n in rest;
        ghost var h0, r0, n0 := heap, rank, next;
        var w := AllocJson(fs[n]);
        AtPut(fields, n, w);
        GrownAdd(h0, r0, heap, rank, ObjCell(fields), ObjCell(fields[n := w]), Name(n), w, old(next), n0);
        forall n2 | n2 in fields ensures InHeap(heap, fields[n2]) && Snap(heap, rank, fields[n2]) == fs[n2] {
          SnapGrow(h0, r0, heap, rank, fields[n2]);
        }
        fields := fields[n := w];
        rest := rest - {n};
      }
      ghost var h1, r1 := heap, rank;
      assert forall x :: x in Kids(ObjCell(fields)) ==> InHeap(heap, x);
      var r := Alloc(ObjCell(fields));
      v := Ptr(r);
      GrownGrow(h1, r1, heap, rank, ObjCell(fields), old(next));
      TreeOfCell(heap, rank, r, old(next));
      forall n | n in fields ensures Snap(heap, rank, fields[n]) == fs[n] {
        SnapGrow(h1, r1, heap, rank, fields[n]);
      }
      SnapPtr(heap, rank, r);
      assert Snap(heap, rank, v).fields == fs;
    }
  }
}
