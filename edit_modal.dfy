/**
 * The generic section editor of src/components/EditModal.tsx. It keeps the
 * section it was opened on as its state and renders one input per scalar
 * and per scalar list element, each remembering the key path of the object
 * it sits in. Typing in an input replaces the state by a shallow copy of it
 * and then assigns along the remembered path. The writers that follow the
 * code (`…AsWritten`) are kept beside the copying writers that do what the
 * inputs evidently mean: set the typed text at the input's own place and
 * leave every object the caller holds as it was.
 */
module EditModal {
  import opened Options
  import opened Json
  import opened JsHeap
  import opened JsMemory
  import opened PathWalk
  import opened Seqs
  import opened ConfigStore

  /** What the dialog tells its owner: the edited section when saving, and that it closed. */
  datatype Event = Saved(section: Json) | Closed

  /** `{ ...current[p], [key]: text }`: the properties `{...cur}` copies, with `key` set to the text. */
  function MergedCell(h: Heap, cur: Val, key: string, text: string): Cell {
    ObjCell(SpreadVal(h, cur)[key := Str(text)])
  }

  /** A list whose element at `index` is the text, when the document is a list; other documents as they are. */
  function WithItem(j: Json, index: nat, text: string): Json {
    match j
    case JArray(ys) => JArray(ReplaceAt(ys, index, JString(text)))
    case _ => j
  }

  /** `{...x}` of what a path reads: nothing when it reads nothing. */
  function SpreadAt(j: Option<Json>): map<string, Json> {
    if j.Some? then Spread(j.value) else map[]
  }

  predicate HoldsList(j: Option<Json>) {
    j.Some? && j.value.JArray?
  }

  class Modal {
    const mem: Memory
    /** The `data` property: the section object the owner passed in. */
    const data: Ref
    /** The `editedData` state. */
    var editedData: Ref

    ghost predicate Valid()
      reads this, mem
    {
      mem.Valid() && data in mem.heap && editedData in mem.heap && mem.heap[editedData].ObjCell?
    }

    /** The section as the dialog currently shows it. */
    function Document(): Json
      reads this, mem
      requires Valid()
    {
      mem.Snapshot(Ptr(editedData))
    }

    /** Nothing but `path` itself leads from the state to the object a deep assignment at `path` writes into. */
    ghost predicate Alone(path: seq<Key>)
      reads this, mem
      requires Valid()
    {
      |path| <= 1 || !WalkOk(mem.heap, Ptr(editedData), path) ||
      OnlyPath(mem.heap, mem.rank, Ptr(editedData), path[..|path| - 1], Container(mem.heap, Ptr(editedData), path))
    }

    /** The state is a tree: no container in it is reached along two routes, as in a section built from a document. */
    ghost predicate Shaped()
      reads this, mem
      requires Valid()
    {
      Tree(mem.heap, mem.rank, Ptr(editedData))
    }

    /** On a tree-shaped state, every deep assignment writes into a container reached only along its path. */
    lemma ShapedAlone(path: seq<Key>)
      requires Valid() && Shaped()
      ensures Alone(path)
    {
      if |path| > 1 && WalkOk(mem.heap, Ptr(editedData), path) {
        TreeOnlyPath(mem.heap, mem.rank, Ptr(editedData), path[..|path| - 1], Container(mem.heap, Ptr(editedData), path));
      }
    }

    /** The section as the owner's object currently reads. */
    function DataDocument(): Json
      reads this, mem
      requires Valid()
    {
      mem.Snapshot(Ptr(data))
    }

    /** `useState(data)`: the state starts out as the owner's object itself, not a copy of it. */
    constructor (mem: Memory, data: Ref)
      requires mem.Valid() && data in mem.heap && mem.heap[data].ObjCell?
      ensures Valid() && this.mem == mem && this.data == data && editedData == data
    {
      this.mem := mem;
      this.data := data;
      editedData := data;
    }

    /**
     * A scalar input's change handler as written, for the input of property
     * `key` inside the object at `path`. A top-level property has the empty
     * path, so the loop never runs and the typed text is dropped. Otherwise
     * the walk from the copy throws where it reads through a non-container;
     * when it succeeds, the text lands at `path` + `key`, and for a path of
     * two or more keys it lands in an object the old state shares, so the
     * old state reads as the new one. When nothing else leads to that
     * object, the new state is the old one with the value at `path`
     * replaced by `{...value, [key]: text}`.
     */
    method EditScalarAsWritten(path: seq<Key>, key: string, text: string) returns (thrown: bool)
      requires Valid()
      modifies this, mem
      ensures Valid()
      ensures thrown == (path != [] && Set(old(Document()), path, JNull).None?)
      ensures old(editedData) in mem.heap
      ensures path == [] || thrown ==> Document() == old(Document())
      ensures !thrown && path != [] ==> Get(Document(), path + [Name(key)]) == Some(JString(text))
      ensures !thrown && |path| == 1 ==> mem.Snapshot(Ptr(old(editedData))) == old(Document())
      ensures !thrown && |path| > 1 ==> mem.Snapshot(Ptr(old(editedData))) == Document()
      ensures !thrown && path != [] && (old(Alone(path)) || old(Shaped())) && !HoldsList(old(Get(Document(), path))) ==>
        Set(old(Document()), path, JObject(SpreadAt(old(Get(Document(), path)))[key := JString(text)])) == Some(Document())
      ensures old(Shaped()) ==> Shaped()
    {
      ghost var h0, r0, c0, b0 := mem.heap, mem.rank, editedData, mem.bound;
      if Shaped() { ShapedAlone(path); }
      assert ObjCell(SpreadVal(mem.heap, Ptr(editedData))) == mem.heap[editedData];
      var t := mem.Alloc(ObjCell(SpreadVal(mem.heap, Ptr(editedData))));
      ghost var h1 := mem.heap;
      SnapGrow(h0, r0, h1, mem.rank, Ptr(c0));
      if path == [] {
        SnapSameCell(h1, mem.rank, t, c0);
        if Tree(h0, r0, Ptr(c0)) { TreeCopy(h0, r0, h1, mem.rank, c0, t); }
        editedData := t;
        return false;
      }
      WalkOkIffSet(h0, r0, Ptr(c0), path, JNull);
      var last := path[|path| - 1];
      var found := Walk(mem, Ptr(t), path[..|path| - 1]);
      CopiedTop(h0, r0, h1, c0, t, path);
      if found.None? || !Writable(mem.heap, found.value, last) {
        if Tree(h0, r0, Ptr(c0)) { TreeGrow(h0, r0, mem.heap, mem.rank, Ptr(c0)); }
        return true;
      }
      AssignMerged(mem, t, found.value.ref, path, key, text, h0, r0, b0, c0);
      editedData := t;
      thrown := false;
    }

    /**
     * The corrected scalar handler: property `key` of the object at `path`
     * takes the text, every container on the way is copied, and nothing the
     * owner holds changes.
     */
    method EditScalar(path: seq<Key>, key: string, text: string) returns (thrown: bool)
      requires Valid()
      modifies this, mem
      ensures Valid() && Grows(old(mem.heap), mem.heap)
      ensures thrown == Set(old(Document()), path + [Name(key)], JString(text)).None?
      ensures thrown ==> editedData == old(editedData)
      ensures !thrown ==> Set(old(Document()), path + [Name(key)], JString(text)) == Some(Document())
      ensures DataDocument() == old(DataDocument())
    {
      ghost var h0, r0 := mem.heap, mem.rank;
      var failed, root := CopyWrite(mem, Ptr(editedData), path + [Name(key)], Str(text));
      SnapGrow(h0, r0, mem.heap, mem.rank, Ptr(data));
      SnapGrow(h0, r0, mem.heap, mem.rank, Ptr(editedData));
      if failed {
        return true;
      }
      editedData := root.ref;
      thrown := false;
    }

    /**
     * A list element's change handler as written, for element `index` of the
     * list `value` that property `key` of the object at `path` holds. The
     * list is copied with that element replaced, and then stored at `path`
     * itself, in place of the object that held the list; with the empty path
     * nothing is stored. A path of two or more keys stores into an object
     * the old state shares. When nothing else leads to that object, the new
     * state is the old one with the list, element replaced, at `path`.
     */
    method EditItemAsWritten(path: seq<Key>, key: string, value: Ref, index: nat, text: string) returns (newData: Ref)
      requires Valid() && value in mem.heap && mem.heap[value].ArrCell? && index < |mem.heap[value].items|
      requires Resolve(mem.heap, Ptr(editedData), path + [Name(key)]) == Some(Ptr(value))
      modifies this, mem
      ensures Valid()
      ensures newData in mem.heap && newData !in old(mem.heap)
      ensures mem.heap[newData] == ArrCell(old(mem.heap[value].items)[index := Str(text)])
      ensures old(editedData) in mem.heap
      ensures path == [] ==> Document() == old(Document())
      ensures path != [] ==> Resolve(mem.heap, Ptr(editedData), path) == Some(Ptr(newData))
      ensures |path| == 1 ==> mem.Snapshot(Ptr(old(editedData))) == old(Document())
      ensures |path| > 1 ==> mem.Snapshot(Ptr(old(editedData))) == Document()
      ensures path != [] && (old(Alone(path)) || old(Shaped())) ==>
        Set(old(Document()), path, WithItem(old(mem.Snapshot(Ptr(value))), index, text)) == Some(Document())
      ensures old(Shaped()) ==> Shaped()
    {
      ghost var h0, r0, c0 := mem.heap, mem.rank, editedData;
      var items := mem.heap[value].items;
      assert forall x :: x in Kids(ArrCell(items[index := Str(text)])) ==> x in Kids(mem.heap[value]) || x == Str(text);
      KidsOfRanked(h0, r0, value);
      newData := mem.Alloc(ArrCell(items[index := Str(text)]));
      ghost var h1, r1, b1 := mem.heap, mem.rank, mem.bound;
      SnapGrow(h0, r0, h1, r1, Ptr(c0));
      if path == [] {
        var t := mem.Alloc(mem.heap[editedData]);
        SnapGrow(h1, r1, mem.heap, mem.rank, Ptr(c0));
        SnapSameCell(mem.heap, mem.rank, t, c0);
        if Tree(h0, r0, Ptr(c0)) {
          TreeGrow(h0, r0, h1, r1, Ptr(c0));
          TreeCopy(h1, r1, mem.heap, mem.rank, c0, t);
        }
        editedData := t;
        return;
      }
      ItemSetup(h0, r0, h1, r1, c0, path, key, value, newData);
      var thrown, t := CopyAndAssign(mem, editedData, path, Ptr(newData));
      ItemOutcome(h0, r0, h1, r1, mem.heap, mem.rank, c0, t, path, key, value, newData, index, text, b1);
      editedData := t;
    }

    /**
     * The corrected list element handler: the copied list is stored at
     * `path` + `key`, where the list was, every container on the way is
     * copied, and nothing the owner holds changes.
     */
    method EditItem(path: seq<Key>, key: string, value: Ref, index: nat, text: string)
      requires Valid() && value in mem.heap && mem.heap[value].ArrCell? && index < |mem.heap[value].items|
      requires Resolve(mem.heap, Ptr(editedData), path + [Name(key)]) == Some(Ptr(value))
      modifies this, mem
      ensures Valid() && Grows(old(mem.heap), mem.heap)
      ensures Set(old(Document()), path + [Name(key)], WithItem(old(mem.Snapshot(Ptr(value))), index, text)) == Some(Document())
      ensures DataDocument() == old(DataDocument())
    {
      ghost var h0, r0, c0 := mem.heap, mem.rank, editedData;
      var items := mem.heap[value].items;
      assert forall x :: x in Kids(ArrCell(items[index := Str(text)])) ==> x in Kids(mem.heap[value]) || x == Str(text);
      KidsOfRanked(h0, r0, value);
      var newData := mem.Alloc(ArrCell(items[index := Str(text)]));
      ghost var h1, r1 := mem.heap, mem.rank;
      ReplacedSnap(h0, r0, h1, r1, value, newData, index, text);
      SnapGrow(h0, r0, h1, r1, Ptr(c0));
      ItemWalks(h0, r0, h1, c0, path, key, value);
      var failed, root := CopyWrite(mem, Ptr(editedData), path + [Name(key)], Ptr(newData));
      SnapGrow(h0, r0, mem.heap, mem.rank, Ptr(data));
      editedData := root.ref;
    }

    /** "Save Changes": the owner receives the edited section, then the dialog closes. */
    method HandleSave() returns (events: seq<Event>)
      requires Valid()
      ensures events == [Saved(Document()), Closed]
    {
      events := [Saved(Document()), Closed];
    }

    /** "Cancel" and the close button: the owner hears only that the dialog closed. */
    method Cancel() returns (events: seq<Event>)
      ensures events == [Closed]
    {
      events := [Closed];
    }
  }

  /**
   * The assignment half of `EditScalarAsWritten`, once the walk from the
   * shallow copy `t` has reached container `c`: `current[p]` becomes the
   * merged object, in place.
   */
  method AssignMerged(mem: Memory, t: Ref, c: Ref, path: seq<Key>, key: string, text: string,
                      ghost h0: Heap, ghost r0: Ranks, ghost b0: nat, ghost c0: Ref)
    requires mem.Valid() && Ranked(h0, r0) && forall r :: r in r0 ==> r0[r] < b0
    requires c0 in h0 && t !in h0 && mem.heap == h0[t := h0[c0]] && |path| > 0 && WalkOk(h0, Ptr(c0), path)
    requires c == if |path| == 1 then t else Container(h0, Ptr(c0), path)
    requires Writable(mem.heap, Ptr(c), path[|path| - 1])
    modifies mem
    ensures mem.Valid() && old(mem.heap).Keys <= mem.heap.Keys && t in mem.heap && mem.heap[t].ObjCell? == h0[c0].ObjCell?
    ensures Get(mem.Snapshot(Ptr(t)), path + [Name(key)]) == Some(JString(text))
    ensures mem.Snapshot(Ptr(c0)) == if |path| <= 1 then Snap(h0, r0, Ptr(c0)) else mem.Snapshot(Ptr(t))
    ensures (|path| == 1 || OnlyPath(h0, r0, Ptr(c0), path[..|path| - 1], Container(h0, Ptr(c0), path))) &&
            !HoldsList(Get(Snap(h0, r0, Ptr(c0)), path)) ==>
      Set(Snap(h0, r0, Ptr(c0)), path, JObject(SpreadAt(Get(Snap(h0, r0, Ptr(c0)), path))[key := JString(text)])) == Some(mem.Snapshot(Ptr(t)))
    ensures Tree(h0, r0, Ptr(c0)) ==> Tree(mem.heap, mem.rank, Ptr(t))
  {
    ghost var h1 := mem.heap;
    var last := path[|path| - 1];
    ChildFits(mem.heap, Ptr(c), last);
    var cur := Child(mem.heap, Ptr(c), last).value;
    MergedKidsIn(mem.heap, mem.rank, c, last, cur, key, text);
    var w := mem.Alloc(MergedCell(mem.heap, cur, key, text));
    ghost var h0' := h0[w := mem.heap[w]];
    ghost var r0' := r0[w := b0];
    MergedSetup(h0, r0, h0', r0', b0, c0, t, h1, path, c, cur, key, text, w, mem.heap);
    AssignInPlace(mem, t, c, path, Ptr(w), h0', r0', c0);
    MergedOutcome(h0, r0, h0', r0', mem.heap, mem.rank, b0, c0, t, path, c, key, text, w);
    if Tree(h0, r0, Ptr(c0)) {
      MergedTree(h0, r0, h0', r0', c0, t, h1, path, c, cur, key, text, w);
      AssignedPtrTree(h0', r0', mem.heap, mem.rank, c0, t, path, Ptr(w), b0 + 1);
    }
    ghost var doc := Get(Snap(h0, r0, Ptr(c0)), path);
    if (|path| == 1 || OnlyPath(h0, r0, Ptr(c0), path[..|path| - 1], Container(h0, Ptr(c0), path))) && !HoldsList(doc) {
      MergedDoc(h0, r0, h1, h0', r0', c0, t, path, c, cur, key, text, w);
    }
  }

  // ----- Lemmas for the writers -----

  lemma {:induction false} IndexMapValues<T>(xs: seq<T>)
    ensures forall k :: k in IndexMap(xs) ==> IndexMap(xs)[k] in xs
    decreases |xs|
  {
    if xs != [] {
      var n := |xs| - 1;
      IndexMapValues(xs[..n]);
      assert forall x :: x in xs[..n] ==> x in xs;
    }
  }

  /** What a spread copies: elements of the spread cell, or one-character strings. */
  lemma SpreadValKids(h: Heap, v: Val)
    ensures forall k :: k in SpreadVal(h, v) ==>
      SpreadVal(h, v)[k].Str? || (v.Ptr? && v.ref in h && SpreadVal(h, v)[k] in Kids(h[v.ref]))
  {
    match v
    case Ptr(r) =>
      if r in h && h[r].ArrCell? {
        IndexMapValues(h[r].items);
      }
    case Str(s) =>
      IndexMapValues(seq(|s|, i requires 0 <= i < |s| => Str([s[i]])));
    case _ =>
  }

  /** The elements of an allocated cell are allocated. */
  lemma KidsOfRanked(h: Heap, rank: Ranks, r: Ref)
    requires Ranked(h, rank) && r in h
    ensures forall x :: x in Kids(h[r]) ==> InHeap(h, x)
  {
    forall x | x in Kids(h[r]) ensures InHeap(h, x) {
      KidBelow(h, rank, Ptr(r), x);
    }
  }

  /** A value ranked no higher than `c` cannot lead to `c`. */
  lemma {:induction false} HigherUnreached(h: Heap, rank: Ranks, v: Val, c: Ref)
    requires Ranked(h, rank) && InHeap(h, v) && c in h && Height(rank, v) <= rank[c]
    ensures !Reaches(h, rank, v, c)
    decreases Height(rank, v)
  {
    if v.Ptr? {
      forall x | x in Kids(h[v.ref]) ensures !Reaches(h, rank, x, c) {
        KidBelow(h, rank, v, x);
        HigherUnreached(h, rank, x, c);
      }
    }
  }

  /** The merged object holds only what `cur` held and a string: allocated, ranked below any bound above the heap, and short of `c` when `cur` is an element of `c`. */
  lemma MergedBelow(h0: Heap, r0: Ranks, b: nat, cur: Val, key: string, text: string, c: Ref)
    requires Ranked(h0, r0) && forall r :: r in r0 ==> r0[r] < b
    requires InHeap(h0, cur) && c in h0 && (cur.Ptr? ==> cur in Kids(h0[c]))
    ensures CellBelow(h0, r0, MergedCell(h0, cur, key, text), b)
    ensures forall x :: x in Kids(MergedCell(h0, cur, key, text)) ==> !Reaches(h0, r0, x, c)
  {
    SpreadValKids(h0, cur);
    var cell := MergedCell(h0, cur, key, text);
    var fs := SpreadVal(h0, cur)[key := Str(text)];
    if cur.Ptr? {
      NoCycle(h0, r0, c, cur);
    }
    forall x | x in Kids(cell) ensures ValBelow(h0, r0, x, b) && !Reaches(h0, r0, x, c) {
      var k :| k in fs && fs[k] == x;
      if x.Ptr? {
        KidBelow(h0, r0, cur, x);
      }
    }
  }

  /**
   * The state before the merged object is assigned: read as if the merged
   * object had been allocated before the shallow copy, the heap is the copy
   * step of the in-place assignment, and the assignment keeps it acyclic.
   */
  lemma MergedSetup(h0: Heap, r0: Ranks, h0': Heap, r0': Ranks, b0: nat, c0: Ref, t: Ref, h1: Heap, path: seq<Key>,
                    c: Ref, cur: Val, key: string, text: string, w: Ref, h2: Heap)
    requires Ranked(h0, r0) && forall r :: r in r0 ==> r0[r] < b0
    requires c0 in h0 && t !in h0 && h1 == h0[t := h0[c0]] && |path| > 0 && WalkOk(h0, Ptr(c0), path)
    requires c == if |path| == 1 then t else Container(h0, Ptr(c0), path)
    requires Child(h1, Ptr(c), path[|path| - 1]).Some? && cur == Child(h1, Ptr(c), path[|path| - 1]).value
    requires w !in h1 && h2 == h1[w := MergedCell(h1, cur, key, text)]
    requires h0' == h0[w := h2[w]] && r0' == r0[w := b0]
    ensures Ranked(h0', r0') && forall r :: r in r0' ==> r0'[r] < b0 + 1
    ensures Grows(h0, h0') && h2 == h0'[t := h0'[c0]]
    ensures c0 in h0' && InHeap(h0', Ptr(w)) && WalkOk(h0', Ptr(c0), Written(path))
    ensures c == if |path| <= 1 then t else Container(h0', Ptr(c0), Written(path))
    ensures |path| > 1 ==> !Reaches(h0', r0', Ptr(w), c)
    ensures c != w && h2[w].ObjCell? && Child(h2, Ptr(w), Name(key)) == Some(Str(text))
  {
    var cell := h2[w];
    MergedAlloc(h0, r0, b0, c0, t, h1, path, c, cur, key, text, w, cell);
    assert Grows(h0, h0');
    WalkGrows(h0, r0, h0', c0, path);
    assert h2 == h0'[t := h0'[c0]];
    if |path| > 1 {
      KidsMissGrow(h0, r0, h0', r0', cell, c);
    }
  }

  /** The allocation half of `MergedSetup`: the merged object fits below the bound and, deep down, misses `c`. */
  lemma MergedAlloc(h0: Heap, r0: Ranks, b0: nat, c0: Ref, t: Ref, h1: Heap, path: seq<Key>,
                    c: Ref, cur: Val, key: string, text: string, w: Ref, cell: Cell)
    requires Ranked(h0, r0) && forall r :: r in r0 ==> r0[r] < b0
    requires c0 in h0 && t !in h0 && h1 == h0[t := h0[c0]] && |path| > 0 && WalkOk(h0, Ptr(c0), path)
    requires c == if |path| == 1 then t else Container(h0, Ptr(c0), path)
    requires Child(h1, Ptr(c), path[|path| - 1]).Some? && cur == Child(h1, Ptr(c), path[|path| - 1]).value
    requires w !in h1 && cell == MergedCell(h1, cur, key, text)
    ensures Ranked(h0[w := cell], r0[w := b0])
    ensures |path| > 1 ==> forall x :: x in Kids(cell) ==> InHeap(h0, x) && !Reaches(h0, r0, x, c)
  {
    var prefix := path[..|path| - 1];
    var src := if |path| == 1 then c0 else c;
    if |path| > 1 {
      ResolveBelow(h0, r0, Ptr(c0), prefix);
    }
    assert src in h0 && h1[c] == h0[src];
    assert Child(h1, Ptr(c), path[|path| - 1]) == Child(h0, Ptr(src), path[|path| - 1]);
    ChildBelow(h0, r0, Ptr(src), path[|path| - 1]);
    assert MergedCell(h1, cur, key, text) == MergedCell(h0, cur, key, text);
    MergedBelow(h0, r0, b0, cur, key, text, src);
    RankedAlloc(h0, r0, w, cell, b0);
  }

  /** A walk that succeeds keeps succeeding, and ends in the same container, once more objects are allocated. */
  lemma WalkGrows(h0: Heap, r0: Ranks, h0': Heap, c0: Ref, path: seq<Key>)
    requires Ranked(h0, r0) && Grows(h0, h0') && c0 in h0 && |path| > 0 && WalkOk(h0, Ptr(c0), path)
    ensures WalkOk(h0', Ptr(c0), Written(path))
    ensures |path| > 1 ==> Container(h0', Ptr(c0), Written(path)) == Container(h0, Ptr(c0), path)
  {
    var prefix := path[..|path| - 1];
    if prefix != [] {
      ResolveGrow(h0, r0, h0', Ptr(c0), prefix);
    }
  }

  /** Allocation keeps the container a deep assignment writes into reachable only along the path. */
  lemma AloneGrows(h0: Heap, r0: Ranks, h1: Heap, r1: Ranks, c0: Ref, path: seq<Key>)
    requires Ranked(h0, r0) && Ranked(h1, r1) && Grows(h0, h1) && c0 in h0 && |path| > 0 && WalkOk(h0, Ptr(c0), path)
    ensures WalkOk(h1, Ptr(c0), Written(path))
    ensures |path| > 1 && OnlyPath(h0, r0, Ptr(c0), path[..|path| - 1], Container(h0, Ptr(c0), path)) ==>
      OnlyPath(h1, r1, Ptr(c0), path[..|path| - 1], Container(h1, Ptr(c0), Written(path)))
  {
    WalkGrows(h0, r0, h1, c0, path);
    if |path| > 1 && OnlyPath(h0, r0, Ptr(c0), path[..|path| - 1], Container(h0, Ptr(c0), path)) {
      OnlyPathGrow(h0, r0, h1, r1, Ptr(c0), path[..|path| - 1], Container(h0, Ptr(c0), path));
    }
  }

  /** Values that do not lead to `c` still do not once a cell holding them is allocated. */
  lemma KidsMissGrow(h0: Heap, r0: Ranks, h0': Heap, r0': Ranks, cell: Cell, c: Ref)
    requires Ranked(h0, r0) && Ranked(h0', r0') && Grows(h0, h0')
    requires forall x :: x in Kids(cell) ==> InHeap(h0, x) && !Reaches(h0, r0, x, c)
    ensures forall x :: x in Kids(cell) ==> InHeap(h0', x) && !Reaches(h0', r0', x, c)
  {
    forall x | x in Kids(cell) ensures !Reaches(h0', r0', x, c) {
      SnapGrow(h0, r0, h0', r0', x);
    }
  }

  /** After the assignment, the copy holds the text at `path` + `key`, and the old state reads as before or as the copy. */
  lemma MergedOutcome(h0: Heap, r0: Ranks, h0': Heap, r0': Ranks, h2: Heap, r2: Ranks, b0: nat,
                      c0: Ref, t: Ref, path: seq<Key>, c: Ref, key: string, text: string, w: Ref)
    requires Ranked(h0, r0) && Ranked(h0', r0') && Ranked(h2, r2) && forall r :: r in r0' ==> r0'[r] < b0 + 1
    requires Grows(h0, h0') && c0 in h0 && t !in h0' && InHeap(h0', Ptr(w)) && |path| > 0
    requires WalkOk(h0', Ptr(c0), Written(path))
    requires |path| > 1 ==> !Reaches(h0', r0', Ptr(w), Container(h0', Ptr(c0), Written(path)))
    requires c == if |path| <= 1 then t else Container(h0', Ptr(c0), Written(path))
    requires h2 == Assigned(h0', c0, t, path, Ptr(w))
    requires c != w && w in h0' && Child(h0', Ptr(w), Name(key)) == Some(Str(text))
    ensures t in h2 && h2[t].ObjCell? == h0[c0].ObjCell?
    ensures Get(Snap(h2, r2, Ptr(t)), path + [Name(key)]) == Some(JString(text))
    ensures Snap(h2, r2, Ptr(c0)) == if |path| <= 1 then Snap(h0, r0, Ptr(c0)) else Snap(h2, r2, Ptr(t))
    ensures |path| <= 1 || OnlyPath(h0', r0', Ptr(c0), path[..|path| - 1], Container(h0', Ptr(c0), Written(path))) ==>
      Set(Snap(h0, r0, Ptr(c0)), path, Snap(h0', r0', Ptr(w))) == Some(Snap(h2, r2, Ptr(t)))
  {
    InPlaceOutcome(h0', r0', h2, r2, c0, t, path, Ptr(w), b0 + 1);
    SnapGrow(h0, r0, h0', r0', Ptr(c0));
    assert h2[w] == h0'[w];
    TextAtKey(h2, r2, t, path, w, key, text);
  }

  /**
   * The merged object, read as if allocated before the copy, is the spread of
   * what `path` reads in the old state with `key` set to the text, and the
   * old state still reaches the container only along the path.
   */
  lemma MergedDoc(h0: Heap, r0: Ranks, h1: Heap, h0': Heap, r0': Ranks, c0: Ref, t: Ref, path: seq<Key>,
                  c: Ref, cur: Val, key: string, text: string, w: Ref)
    requires Ranked(h0, r0) && Ranked(h0', r0') && Grows(h0, h0')
    requires c0 in h0 && t !in h0 && h1 == h0[t := h0[c0]] && |path| > 0 && WalkOk(h0, Ptr(c0), path)
    requires c == if |path| == 1 then t else Container(h0, Ptr(c0), path)
    requires Child(h1, Ptr(c), path[|path| - 1]).Some? && cur == Child(h1, Ptr(c), path[|path| - 1]).value
    requires w in h0' && h0'[w] == MergedCell(h1, cur, key, text)
    requires |path| == 1 || OnlyPath(h0, r0, Ptr(c0), path[..|path| - 1], Container(h0, Ptr(c0), path))
    requires !HoldsList(Get(Snap(h0, r0, Ptr(c0)), path))
    ensures WalkOk(h0', Ptr(c0), Written(path))
    ensures Snap(h0', r0', Ptr(w)) == JObject(SpreadAt(Get(Snap(h0, r0, Ptr(c0)), path))[key := JString(text)])
    ensures |path| == 1 || OnlyPath(h0', r0', Ptr(c0), path[..|path| - 1], Container(h0', Ptr(c0), Written(path)))
  {
    MergedCur(h0, r0, h1, c0, t, path, c, cur);
    ResolveGet(h0, r0, Ptr(c0), path);
    MergedSnap(h0, r0, h0', r0', cur, key, text, w);
    AloneGrows(h0, r0, h0', r0', c0, path);
  }

  /** The value the merged object spreads is what `path` reads in the old state, and it spreads the same in both heaps. */
  lemma MergedCur(h0: Heap, r0: Ranks, h1: Heap, c0: Ref, t: Ref, path: seq<Key>, c: Ref, cur: Val)
    requires Ranked(h0, r0) && c0 in h0 && t !in h0 && h1 == h0[t := h0[c0]] && |path| > 0 && WalkOk(h0, Ptr(c0), path)
    requires c == if |path| == 1 then t else Container(h0, Ptr(c0), path)
    requires Child(h1, Ptr(c), path[|path| - 1]).Some? && cur == Child(h1, Ptr(c), path[|path| - 1]).value
    ensures Resolve(h0, Ptr(c0), path) == Some(cur) && InHeap(h0, cur)
    ensures SpreadVal(h1, cur) == SpreadVal(h0, cur)
  {
    var prefix, last := path[..|path| - 1], path[|path| - 1];
    var src := if |path| == 1 then c0 else c;
    if |path| > 1 {
      ResolveBelow(h0, r0, Ptr(c0), prefix);
    }
    assert Resolve(h0, Ptr(c0), prefix) == Some(Ptr(src));
    assert src in h0 && h1[c] == h0[src];
    assert Child(h1, Ptr(c), last) == Child(h0, Ptr(src), last);
    ChildBelow(h0, r0, Ptr(src), last);
    assert path == prefix + [last];
    ResolveAppend(h0, Ptr(c0), prefix, [last]);
  }

  /** An object allocated as `{...cur, [key]: text}` reads as the spread of `cur`'s document with `key` set to the text. */
  lemma MergedSnap(h0: Heap, r0: Ranks, h0': Heap, r0': Ranks, cur: Val, key: string, text: string, w: Ref)
    requires Ranked(h0, r0) && Ranked(h0', r0') && Grows(h0, h0') && InHeap(h0, cur)
    requires w in h0' && h0'[w] == MergedCell(h0, cur, key, text) && !(cur.Ptr? && h0[cur.ref].ArrCell?)
    ensures Snap(h0', r0', Ptr(w)) == JObject(Spread(Snap(h0, r0, cur))[key := JString(text)])
  {
    SpreadMatches(h0, r0, cur);
    var fs := SpreadVal(h0, cur);
    SnapFieldsGrow(h0, r0, h0', r0', fs);
    SnapFieldsPut(h0', r0', fs, key, Str(text));
    FieldsInHeap(h0', r0', w);
  }

  /** Spreading a value that is not an array, then serialising, is spreading its document. */
  lemma SpreadMatches(h: Heap, rank: Ranks, v: Val)
    requires Ranked(h, rank) && InHeap(h, v) && !(v.Ptr? && h[v.ref].ArrCell?)
    ensures AllIn(h, SpreadVal(h, v))
    ensures SnapFields(h, rank, SpreadVal(h, v)) == Spread(Snap(h, rank, v))
  {
    match v
    case Ptr(r) => FieldsInHeap(h, rank, r);
    case Str(s) => SpreadSnapString(h, rank, s);
    case _ =>
  }

  /** Reading `path` + `key` from `t` finds the text when `path` leads to an object whose `key` holds it. */
  lemma TextAtKey(h: Heap, rank: Ranks, t: Ref, path: seq<Key>, w: Ref, key: string, text: string)
    requires Ranked(h, rank) && t in h && Resolve(h, Ptr(t), path) == Some(Ptr(w))
    requires Child(h, Ptr(w), Name(key)) == Some(Str(text))
    ensures Get(Snap(h, rank, Ptr(t)), path + [Name(key)]) == Some(JString(text))
  {
    assert Resolve(h, Str(text), []) == Some(Str(text));
    ResolveAppend(h, Ptr(t), path, [Name(key)]);
    ResolveGet(h, rank, Ptr(t), path + [Name(key)]);
  }

  /** What the merged object holds is allocated. */
  lemma MergedKidsIn(h: Heap, rank: Ranks, c: Ref, k: Key, cur: Val, key: string, text: string)
    requires Ranked(h, rank) && c in h && Child(h, Ptr(c), k).Some? && cur == Child(h, Ptr(c), k).value
    ensures forall x :: x in Kids(MergedCell(h, cur, key, text)) ==> InHeap(h, x)
  {
    ChildBelow(h, rank, Ptr(c), k);
    SpreadValKids(h, cur);
    var fs := SpreadVal(h, cur)[key := Str(text)];
    forall x | x in Kids(MergedCell(h, cur, key, text)) ensures InHeap(h, x) {
      var k' :| k' in fs && fs[k'] == x;
      if x.Ptr? {
        KidBelow(h, rank, cur, x);
      }
    }
  }

  /** The walk to the rendered list succeeds in the heap after the copy of the list is allocated. */
  lemma ItemWalks(h0: Heap, r0: Ranks, h1: Heap, c0: Ref, path: seq<Key>, key: string, value: Ref)
    requires Ranked(h0, r0) && Grows(h0, h1) && c0 in h0
    requires Resolve(h0, Ptr(c0), path + [Name(key)]) == Some(Ptr(value))
    ensures Resolve(h1, Ptr(c0), path + [Name(key)]) == Some(Ptr(value))
    ensures WalkOk(h1, Ptr(c0), path + [Name(key)])
    ensures path != [] ==> WalkOk(h0, Ptr(c0), path) && WalkOk(h1, Ptr(c0), path)
  {
    var p := path + [Name(key)];
    assert p[..|p| - 1] == path;
    ResolveAppend(h0, Ptr(c0), path, [Name(key)]);
    ResolveGrow(h0, r0, h1, Ptr(c0), path);
    ResolveGrow(h0, r0, h1, Ptr(c0), p);
    var x := Resolve(h0, Ptr(c0), path).value;
    assert Child(h0, x, Name(key)).Some?;
    ChildFits(h0, x, Name(key));
    if path != [] {
      var prefix := path[..|path| - 1];
      assert path == prefix + [path[|path| - 1]];
      ResolveAppend(h0, Ptr(c0), prefix, [path[|path| - 1]]);
      ResolveGrow(h0, r0, h1, Ptr(c0), prefix);
      var y := Resolve(h0, Ptr(c0), prefix).value;
      assert Child(h0, y, path[|path| - 1]).Some?;
      ChildFits(h0, y, path[|path| - 1]);
    }
  }

  /** The copied list can be assigned at `path` without a cycle: everything it holds sits below the container it goes into. */
  lemma ItemSetup(h0: Heap, r0: Ranks, h1: Heap, r1: Ranks, c0: Ref, path: seq<Key>, key: string, value: Ref, nd: Ref)
    requires Ranked(h0, r0) && Ranked(h1, r1) && c0 in h0 && value in h0 && nd !in h0
    requires nd in h1 && h1 == h0[nd := h1[nd]] && forall x :: x in Kids(h1[nd]) ==> x in Kids(h0[value]) || x.Str?
    requires path != [] && Resolve(h0, Ptr(c0), path + [Name(key)]) == Some(Ptr(value))
    ensures WalkOk(h1, Ptr(c0), Written(path))
    ensures |path| > 1 ==> !Reaches(h1, r1, Ptr(nd), Container(h1, Ptr(c0), Written(path)))
    ensures |path| > 1 ==> Container(h1, Ptr(c0), Written(path)) in h0
    ensures WalkOk(h0, Ptr(c0), path)
  {
    assert Grows(h0, h1);
    ItemWalks(h0, r0, h1, c0, path, key, value);
    if |path| > 1 {
      var prefix, last := path[..|path| - 1], path[|path| - 1];
      assert path + [Name(key)] == prefix + [last, Name(key)];
      ResolveAppend(h0, Ptr(c0), prefix, [last, Name(key)]);
      ResolveGrow(h0, r0, h1, Ptr(c0), prefix);
      ResolveBelow(h0, r0, Ptr(c0), prefix);
      var c := Resolve(h0, Ptr(c0), prefix).value.ref;
      ResolveBelow(h0, r0, Ptr(c), [last, Name(key)]);
      forall x | x in Kids(h1[nd]) ensures !Reaches(h1, r1, x, c) {
        if x.Ptr? {
          KidBelow(h0, r0, Ptr(value), x);
          HigherUnreached(h0, r0, x, c);
          SnapGrow(h0, r0, h1, r1, x);
        }
      }
    }
  }

  /**
   * What the list handler's assignment leaves, read as documents: the copy
   * holds the new list at `path`, the old state reads as before or as the
   * copy, and when nothing else leads to the container the copy is `Set` of
   * the old state.
   */
  lemma ItemOutcome(h0: Heap, r0: Ranks, h1: Heap, r1: Ranks, h2: Heap, r2: Ranks, c0: Ref, t: Ref, path: seq<Key>,
                    key: string, value: Ref, nd: Ref, index: nat, text: string, b1: nat)
    requires Ranked(h0, r0) && Ranked(h1, r1) && Ranked(h2, r2) && forall r :: r in r1 ==> r1[r] < b1
    requires Grows(h0, h1) && c0 in h0 && t !in h1 && nd !in h0 && path != [] && WalkOk(h0, Ptr(c0), path)
    requires value in h0 && h0[value].ArrCell? && index < |h0[value].items|
    requires nd in h1 && h1[nd] == ArrCell(h0[value].items[index := Str(text)])
    requires WalkOk(h1, Ptr(c0), Written(path))
    requires |path| > 1 ==> !Reaches(h1, r1, Ptr(nd), Container(h1, Ptr(c0), Written(path)))
    requires |path| > 1 ==> Container(h1, Ptr(c0), Written(path)) in h0
    requires h2 == Assigned(h1, c0, t, path, Ptr(nd))
    ensures t in h2 && h2[t].ObjCell? == h1[c0].ObjCell? && nd in h2 && h2[nd] == h1[nd]
    ensures Resolve(h2, Ptr(t), path) == Some(Ptr(nd))
    ensures Snap(h2, r2, Ptr(c0)) == if |path| <= 1 then Snap(h0, r0, Ptr(c0)) else Snap(h2, r2, Ptr(t))
    ensures (|path| <= 1 || Tree(h0, r0, Ptr(c0)) || OnlyPath(h0, r0, Ptr(c0), path[..|path| - 1], Container(h0, Ptr(c0), path))) ==>
      Set(Snap(h0, r0, Ptr(c0)), path, WithItem(Snap(h0, r0, Ptr(value)), index, text)) == Some(Snap(h2, r2, Ptr(t)))
    ensures Tree(h0, r0, Ptr(c0)) && Resolve(h0, Ptr(c0), path + [Name(key)]) == Some(Ptr(value)) ==> Tree(h2, r2, Ptr(t))
  {
    InPlaceOutcome(h1, r1, h2, r2, c0, t, path, Ptr(nd), b1);
    SnapGrow(h0, r0, h1, r1, Ptr(c0));
    ReplacedSnap(h0, r0, h1, r1, value, nd, index, text);
    if Tree(h0, r0, Ptr(c0)) && |path| > 1 {
      TreeOnlyPath(h0, r0, Ptr(c0), path[..|path| - 1], Container(h0, Ptr(c0), path));
    }
    AloneGrows(h0, r0, h1, r1, c0, path);
    if Tree(h0, r0, Ptr(c0)) && Resolve(h0, Ptr(c0), path + [Name(key)]) == Some(Ptr(value)) {
      ItemShaped(h0, r0, h1, r1, h2, r2, c0, t, path, key, value, nd, index, text, b1);
    }
  }

  /** The copy of a list with one element replaced reads as the list's document with that element replaced. */
  lemma ReplacedSnap(h0: Heap, r0: Ranks, h1: Heap, r1: Ranks, value: Ref, nd: Ref, index: nat, text: string)
    requires Ranked(h0, r0) && Ranked(h1, r1) && Grows(h0, h1) && value in h0 && h0[value].ArrCell?
    requires index < |h0[value].items| && nd in h1 && h1[nd] == ArrCell(h0[value].items[index := Str(text)])
    ensures Snap(h1, r1, Ptr(nd)) == WithItem(Snap(h0, r0, Ptr(value)), index, text)
  {
    var items := h0[value].items;
    SnapGrow(h0, r0, h1, r1, Ptr(value));
    SnapPtr(h1, r1, value);
    SnapPtr(h1, r1, nd);
    var ys := Snap(h1, r1, Ptr(value)).items;
    var zs := Snap(h1, r1, Ptr(nd)).items;
    assert |zs| == |ys| == |items|;
    forall m | 0 <= m < |zs| ensures zs[m] == ReplaceAt(ys, index, JString(text))[m] {
      if m != index {
        assert items[m] in Kids(h1[value]);
      }
    }
  }

  /** The value the merge spreads is the one the path resolves to in the state, a tree when the state is one. */
  lemma MergedResolve(h0: Heap, r0: Ranks, c0: Ref, t: Ref, h1: Heap, path: seq<Key>, c: Ref, cur: Val)
    requires Ranked(h0, r0) && c0 in h0 && Tree(h0, r0, Ptr(c0))
    requires t !in h0 && h1 == h0[t := h0[c0]] && |path| > 0 && WalkOk(h0, Ptr(c0), path)
    requires c == if |path| == 1 then t else Container(h0, Ptr(c0), path)
    requires Child(h1, Ptr(c), path[|path| - 1]).Some? && cur == Child(h1, Ptr(c), path[|path| - 1]).value
    ensures Resolve(h0, Ptr(c0), path) == Some(cur) && InHeap(h0, cur) && Tree(h0, r0, cur)
  {
    var prefix, last := path[..|path| - 1], path[|path| - 1];
    if |path| == 1 {
      assert c == t && h1[c] == h0[c0];
      assert Child(h1, Ptr(c), last) == Child(h0, Ptr(c0), last);
      ResolveLast(h0, r0, c0, c0, path, cur);
    } else {
      ResolveBelow(h0, r0, Ptr(c0), prefix);
      assert c in h0 && h1[c] == h0[c];
      assert Child(h1, Ptr(c), last) == Child(h0, Ptr(c), last);
      ResolveLast(h0, r0, c0, c, path, cur);
    }
  }

  /** A path resolves to the child, at its last key, of the container its prefix resolves to. */
  lemma ResolveLast(h0: Heap, r0: Ranks, c0: Ref, src: Ref, path: seq<Key>, cur: Val)
    requires Ranked(h0, r0) && c0 in h0 && Tree(h0, r0, Ptr(c0)) && |path| > 0
    requires Resolve(h0, Ptr(c0), path[..|path| - 1]) == Some(Ptr(src)) && src in h0
    requires Child(h0, Ptr(src), path[|path| - 1]) == Some(cur)
    ensures Resolve(h0, Ptr(c0), path) == Some(cur) && InHeap(h0, cur) && Tree(h0, r0, cur)
  {
    var prefix, last := path[..|path| - 1], path[|path| - 1];
    assert path == prefix + [last];
    assert Resolve(h0, Ptr(src), [last]) == Resolve(h0, cur, []) == Some(cur) by { assert [last][1..] == []; }
    ResolveAppend(h0, Ptr(c0), prefix, [last]);
    assert Resolve(h0, Ptr(c0), path) == Some(cur);
    TreeResolve(h0, r0, Ptr(c0), path);
  }

  /**
   * The merged object `{...cur, [key]: text}` built from a tree-shaped state is
   * a tree, and it shares with the state only what the value it replaces reaches.
   */
  lemma MergedTree(h0: Heap, r0: Ranks, h0': Heap, r0': Ranks, c0: Ref, t: Ref, h1: Heap, path: seq<Key>,
                   c: Ref, cur: Val, key: string, text: string, w: Ref)
    requires Ranked(h0, r0) && Ranked(h0', r0') && Grows(h0, h0') && c0 in h0 && Tree(h0, r0, Ptr(c0))
    requires t !in h0 && h1 == h0[t := h0[c0]] && |path| > 0 && WalkOk(h0, Ptr(c0), path)
    requires c == if |path| == 1 then t else Container(h0, Ptr(c0), path)
    requires Child(h1, Ptr(c), path[|path| - 1]).Some? && cur == Child(h1, Ptr(c), path[|path| - 1]).value
    requires w !in h0 && w in h0' && h0'[w] == MergedCell(h1, cur, key, text)
    ensures c0 in h0' && InHeap(h0', Ptr(w)) && Tree(h0', r0', Ptr(c0)) && Tree(h0', r0', Ptr(w))
    ensures forall s: Ref :: Reaches(h0', r0', Ptr(w), s) && Reaches(h0', r0', Ptr(c0), s) ==>
      Resolve(h0', Ptr(c0), Written(path)).Some? && InHeap(h0', Resolve(h0', Ptr(c0), Written(path)).value) &&
      Reaches(h0', r0', Resolve(h0', Ptr(c0), Written(path)).value, s)
  {
    MergedResolve(h0, r0, c0, t, h1, path, c, cur);
    assert MergedCell(h1, cur, key, text) == MergedCell(h0, cur, key, text);
    SpreadForest(h0, r0, cur);
    var fs := SpreadVal(h0, cur)[key := Str(text)];
    ForestPut(h0, r0, SpreadVal(h0, cur), key, Str(text));
    ForestTree(h0, r0, h0', r0', w, fs);
    TreeGrow(h0, r0, h0', r0', Ptr(c0));
    ResolveGrow(h0, r0, h0', Ptr(c0), path);
    SnapGrow(h0, r0, h0', r0', cur);
    forall s: Ref | Reaches(h0', r0', Ptr(w), s) && Reaches(h0', r0', Ptr(c0), s) ensures Reaches(h0', r0', cur, s) {
      MergedSharesOne(h0, r0, h0', r0', c0, cur, key, text, w, s);
    }
  }

  /** One reference of `MergedTree`: what the merged object and the state share, the spread value reaches. */
  lemma MergedSharesOne(h0: Heap, r0: Ranks, h0': Heap, r0': Ranks, c0: Ref, cur: Val, key: string, text: string, w: Ref, s: Ref)
    requires Ranked(h0, r0) && Ranked(h0', r0') && Grows(h0, h0') && c0 in h0 && InHeap(h0, cur)
    requires w !in h0 && w in h0' && h0'[w] == MergedCell(h0, cur, key, text) && AllIn(h0, SpreadVal(h0, cur))
    requires forall k, t: Ref :: k in SpreadVal(h0, cur) && Reaches(h0, r0, SpreadVal(h0, cur)[k], t) ==> Reaches(h0, r0, cur, t)
    requires Reaches(h0', r0', Ptr(w), s) && Reaches(h0', r0', Ptr(c0), s)
    ensures Reaches(h0, r0, cur, s)
  {
    var fs := SpreadVal(h0, cur)[key := Str(text)];
    SnapGrow(h0, r0, h0', r0', Ptr(c0));
    ReachesBelow(h0, r0, Ptr(c0), s);
    SnapPtr(h0', r0', w);
    var x :| x in Kids(h0'[w]) && Reaches(h0', r0', x, s);
    var k :| k in fs && fs[k] == x;
    SnapGrow(h0, r0, h0', r0', x);
  }

  /**
   * The copy of a tree-shaped list with one element replaced by a string is a
   * tree that reaches only itself and what the list reaches.
   */
  lemma ReplacedTree(h0: Heap, r0: Ranks, h1: Heap, r1: Ranks, value: Ref, nd: Ref, index: nat, text: string)
    requires Ranked(h0, r0) && Ranked(h1, r1) && Grows(h0, h1) && value in h0 && h0[value].ArrCell? && Tree(h0, r0, Ptr(value))
    requires index < |h0[value].items| && nd in h1 && h1[nd] == ArrCell(h0[value].items[index := Str(text)])
    ensures Tree(h1, r1, Ptr(nd))
    ensures forall s: Ref :: Reaches(h1, r1, Ptr(nd), s) ==> s == nd || Reaches(h0, r0, Ptr(value), s)
  {
    var items := h0[value].items;
    var ys := items[index := Str(text)];
    SnapPtr(h0, r0, value);
    SnapPtr(h1, r1, nd);
    forall x | x in Kids(h1[nd])
      ensures InHeap(h1, x) && Tree(h1, r1, x)
      ensures forall s: Ref :: Reaches(h1, r1, x, s) ==> Reaches(h0, r0, Ptr(value), s)
    {
      var i :| 0 <= i < |ys| && ys[i] == x;
      if i != index {
        assert x == items[i] && x in Kids(h0[value]);
        KidBelow(h0, r0, Ptr(value), x);
        TreeGrow(h0, r0, h1, r1, x);
        SnapGrow(h0, r0, h1, r1, x);
        forall s: Ref | Reaches(h0, r0, x, s) ensures Reaches(h0, r0, Ptr(value), s) {
          ReachesViaKid(h0, r0, value, x, s);
        }
      }
    }
    forall k1, k2 | k1 != k2 && At(h1[nd], k1).Some? && At(h1[nd], k2).Some?
      ensures Apart(h1, r1, At(h1[nd], k1).value, At(h1[nd], k2).value)
    {
      var i1, i2 := k1.index, k2.index;
      if i1 != index && i2 != index {
        assert At(h0[value], k1) == At(h1[nd], k1) && At(h0[value], k2) == At(h1[nd], k2);
        AtKid(h0[value], k1);
        AtKid(h0[value], k2);
        ApartGrow(h0, r0, h1, r1, At(h0[value], k1).value, At(h0[value], k2).value);
      }
    }
    forall s: Ref | Reaches(h1, r1, Ptr(nd), s) ensures s == nd || Reaches(h0, r0, Ptr(value), s) {
      if s != nd {
        var x :| x in Kids(h1[nd]) && Reaches(h1, r1, x, s);
      }
    }
  }

  /**
   * Before the list handler's assignment into a tree-shaped state: the state
   * and the copied list are trees, and the list shares with the state only
   * what the object at `path`, which it replaces, reaches.
   */
  lemma ItemTree(h0: Heap, r0: Ranks, h1: Heap, r1: Ranks, c0: Ref, path: seq<Key>, key: string,
                 value: Ref, nd: Ref, index: nat, text: string)
    requires Ranked(h0, r0) && Ranked(h1, r1) && Grows(h0, h1) && c0 in h0 && Tree(h0, r0, Ptr(c0)) && nd !in h0
    requires Resolve(h0, Ptr(c0), path + [Name(key)]) == Some(Ptr(value)) && path != []
    requires value in h0 && h0[value].ArrCell? && index < |h0[value].items|
    requires nd in h1 && h1[nd] == ArrCell(h0[value].items[index := Str(text)])
    ensures Tree(h1, r1, Ptr(c0)) && InHeap(h1, Ptr(nd)) && Tree(h1, r1, Ptr(nd))
    ensures forall s: Ref :: Reaches(h1, r1, Ptr(nd), s) && Reaches(h1, r1, Ptr(c0), s) ==>
      Resolve(h1, Ptr(c0), Written(path)).Some? && InHeap(h1, Resolve(h1, Ptr(c0), Written(path)).value) &&
      Reaches(h1, r1, Resolve(h1, Ptr(c0), Written(path)).value, s)
  {
    TreeGrow(h0, r0, h1, r1, Ptr(c0));
    TreeResolve(h0, r0, Ptr(c0), path + [Name(key)]);
    ResolveAppend(h0, Ptr(c0), path, [Name(key)]);
    ResolveGrow(h0, r0, h1, Ptr(c0), path);
    ResolveBelow(h0, r0, Ptr(c0), path);
    var o := Resolve(h0, Ptr(c0), path).value;
    assert [Name(key)][1..] == [];
    assert Child(h0, o, Name(key)) == Some(Ptr(value));
    ChildBelow(h0, r0, o, Name(key));
    ReplacedTree(h0, r0, h1, r1, value, nd, index, text);
    SnapGrow(h0, r0, h1, r1, Ptr(c0));
    SnapGrow(h0, r0, h1, r1, o);
    forall s: Ref | Reaches(h1, r1, Ptr(nd), s) && Reaches(h1, r1, Ptr(c0), s) ensures Reaches(h1, r1, o, s) {
      ReachesBelow(h0, r0, Ptr(c0), s);
      ReachesViaKid(h0, r0, o.ref, Ptr(value), s);
    }
  }

  /** The list handler's assignment into a tree-shaped state leaves a tree. */
  lemma ItemShaped(h0: Heap, r0: Ranks, h1: Heap, r1: Ranks, h2: Heap, r2: Ranks, c0: Ref, t: Ref, path: seq<Key>,
                   key: string, value: Ref, nd: Ref, index: nat, text: string, b1: nat)
    requires Ranked(h0, r0) && Ranked(h1, r1) && Ranked(h2, r2) && forall r :: r in r1 ==> r1[r] < b1
    requires Grows(h0, h1) && c0 in h0 && Tree(h0, r0, Ptr(c0)) && t !in h1 && nd !in h0
    requires Resolve(h0, Ptr(c0), path + [Name(key)]) == Some(Ptr(value)) && path != []
    requires value in h0 && h0[value].ArrCell? && index < |h0[value].items|
    requires nd in h1 && h1[nd] == ArrCell(h0[value].items[index := Str(text)])
    requires WalkOk(h1, Ptr(c0), Written(path))
    requires |path| > 1 ==> !Reaches(h1, r1, Ptr(nd), Container(h1, Ptr(c0), Written(path)))
    requires h2 == Assigned(h1, c0, t, path, Ptr(nd))
    ensures t in h2 && Tree(h2, r2, Ptr(t))
  {
    ItemTree(h0, r0, h1, r1, c0, path, key, value, nd, index, text);
    AssignedPtrTree(h1, r1, h2, r2, c0, t, path, Ptr(nd), b1);
  }

  // ----- Scenarios on a section built from a document -----

  /** A fresh dialog on a section built from `seed`. */
  method Open(seed: Json) returns (m: Modal)
    requires seed.JObject?
    ensures fresh(m) && fresh(m.mem) && m.Valid() && m.editedData == m.data && m.Document() == seed
    ensures m.Shaped()
  {
    var mem := new Memory();
    var d := AllocDocument(mem, seed);
    m := new Modal(mem, d);
  }

  /** Typing into a top-level field as written: the section is unchanged, whatever was typed. */
  method TopLevelEditAsWritten(seed: Json, key: string, text: string) returns (shown: Json)
    requires seed.JObject?
    ensures shown == seed
  {
    var m := Open(seed);
    var thrown := m.EditScalarAsWritten([], key, text);
    shown := m.Document();
  }

  /** The same input with the corrected handler: the field shows the typed text. */
  method TopLevelEdit(seed: Json, key: string, text: string) returns (shown: Json)
    requires seed.JObject?
    ensures Get(shown, [Name(key)]) == Some(JString(text))
  {
    var m := Open(seed);
    SetDefined(seed, [Name(key)], JString(text));
    var thrown := m.EditScalar([], key, text);
    SetThenGet(seed, [Name(key)], JString(text));
    shown := m.Document();
  }

  /**
   * A field two or more keys deep, typed into and then cancelled, as written:
   * the owner's section shows the typed text even though nothing was saved.
   */
  method CancelledDeepEditAsWritten(seed: Json, path: seq<Key>, key: string, text: string) returns (owner: Json, events: seq<Event>)
    requires seed.JObject? && |path| > 1 && Set(seed, path, JNull).Some?
    ensures Get(owner, path + [Name(key)]) == Some(JString(text))
    ensures !HoldsList(Get(seed, path)) ==> Set(seed, path, JObject(SpreadAt(Get(seed, path))[key := JString(text)])) == Some(owner)
    ensures events == [Closed]
  {
    var m := Open(seed);
    var thrown := m.EditScalarAsWritten(path, key, text);
    events := m.Cancel();
    owner := m.DataDocument();
  }

  /** The same steps with the corrected handler: the owner's section is untouched. */
  method CancelledDeepEdit(seed: Json, path: seq<Key>, key: string, text: string) returns (owner: Json, events: seq<Event>)
    requires seed.JObject?
    ensures owner == seed && events == [Closed]
  {
    var m := Open(seed);
    var thrown := m.EditScalar(path, key, text);
    events := m.Cancel();
    owner := m.DataDocument();
  }

  /** Finds the live list that the rendered list `ys` of strings was built into. */
  method FindList(m: Modal, path: seq<Key>, key: string, ys: seq<Json>) returns (value: Ref)
    requires m.Valid() && Get(m.Document(), path + [Name(key)]) == Some(JArray(ys))
    requires forall y :: y in ys ==> y.JString?
    ensures value in m.mem.heap && m.mem.heap[value].ArrCell? && |m.mem.heap[value].items| == |ys|
    ensures Resolve(m.mem.heap, Ptr(m.editedData), path + [Name(key)]) == Some(Ptr(value))
    ensures forall i :: 0 <= i < |ys| ==> m.mem.heap[value].items[i] == Str(ys[i].s)
    ensures m.mem.Snapshot(Ptr(value)) == JArray(ys)
  {
    ResolveGet(m.mem.heap, m.mem.rank, Ptr(m.editedData), path + [Name(key)]);
    var found := Walk(m.mem, Ptr(m.editedData), path + [Name(key)]);
    value := found.value.ref;
    SnapPtr(m.mem.heap, m.mem.rank, value);
    var items := m.mem.heap[value].items;
    forall i | 0 <= i < |ys| ensures items[i] == Str(ys[i].s) {
      assert ys[i] in ys;
      assert items[i] in Kids(m.mem.heap[value]);
    }
  }

  /**
   * Editing one string of a list that sits inside a nested object, as
   * written: the nested object is replaced by the edited list.
   */
  method NestedListEditAsWritten(seed: Json, path: seq<Key>, key: string, ys: seq<Json>, index: nat, text: string) returns (shown: Json)
    requires seed.JObject? && path != [] && index < |ys|
    requires Get(seed, path + [Name(key)]) == Some(JArray(ys)) && forall y :: y in ys ==> y.JString?
    ensures Get(shown, path) == Some(JArray(ReplaceAt(ys, index, JString(text))))
    ensures Set(seed, path, JArray(ReplaceAt(ys, index, JString(text)))) == Some(shown)
  {
    var m := Open(seed);
    var value := FindList(m, path, key, ys);
    ghost var items0 := m.mem.heap[value].items;
    var nd := m.EditItemAsWritten(path, key, value, index, text);
    ResolveGet(m.mem.heap, m.mem.rank, Ptr(m.editedData), path);
    StringsReplacedSnap(m.mem.heap, m.mem.rank, nd, items0, ys, index, text);
    shown := m.Document();
  }

  /** A list of strings copied with one element replaced reads as the document list with that element replaced. */
  lemma StringsReplacedSnap(h: Heap, rank: Ranks, nd: Ref, items0: seq<Val>, ys: seq<Json>, index: nat, text: string)
    requires Ranked(h, rank) && nd in h && |items0| == |ys| && index < |ys| && h[nd] == ArrCell(items0[index := Str(text)])
    requires forall y :: y in ys ==> y.JString?
    requires forall i :: 0 <= i < |ys| ==> items0[i] == Str(ys[i].s)
    ensures Snap(h, rank, Ptr(nd)) == JArray(ReplaceAt(ys, index, JString(text)))
  {
    SnapPtr(h, rank, nd);
    var zs := Snap(h, rank, Ptr(nd)).items;
    var want := ReplaceAt(ys, index, JString(text));
    assert |zs| == |ys| == |want|;
    forall i | 0 <= i < |ys| ensures zs[i] == want[i] {
      assert ys[i] in ys;
      assert h[nd].items[i] in Kids(h[nd]);
    }
    assert zs == want;
  }

  /** The same edit with the corrected handler: the list itself shows the new string. */
  method NestedListEdit(seed: Json, path: seq<Key>, key: string, ys: seq<Json>, index: nat, text: string) returns (shown: Json)
    requires seed.JObject? && index < |ys|
    requires Get(seed, path + [Name(key)]) == Some(JArray(ys)) && forall y :: y in ys ==> y.JString?
    ensures Get(shown, path + [Name(key)]) == Some(JArray(ReplaceAt(ys, index, JString(text))))
  {
    var m := Open(seed);
    var value := FindList(m, path, key, ys);
    ResolveGet(m.mem.heap, m.mem.rank, Ptr(m.editedData), path + [Name(key)]);
    m.EditItem(path, key, value, index, text);
    SetThenGet(seed, path + [Name(key)], JArray(ReplaceAt(ys, index, JString(text))));
    shown := m.Document();
  }
}
