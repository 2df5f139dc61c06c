/**
 * The graphic-design portfolio page (src/components/templates/GraphicDesignTemplate.tsx):
 * the category buttons and the project grid derived from the configuration,
 * and the handlers that change the configuration through the store's path update.
 */
module GraphicDesign {
  import opened Options
  import opened Json
  import opened JsHeap
  import opened JsMemory
  import opened ConfigStore
  import opened Seqs
  import PortfolioConfig

  type Project = PortfolioConfig.Project

  /** The category that shows every project, and the one selected at first. */
  const All: string := "all"

  function CategoryList(projects: seq<Project>): (cs: seq<string>)
    ensures |cs| == |projects| && forall i :: 0 <= i < |projects| ==> cs[i] == projects[i].category
  {
    seq(|projects|, i requires 0 <= i < |projects| => projects[i].category)
  }

  /** `categories`: "all", then the projects' categories with repeats dropped. */
  function Categories(projects: seq<Project>): seq<string> {
    [All] + Distinct(CategoryList(projects))
  }

  /**
   * The buttons: "all" first, then every category some project has, each once,
   * in the order the projects first use them.
   */
  lemma CategoriesSpec(projects: seq<Project>)
    ensures |Categories(projects)| > 0 && Categories(projects)[0] == All
    ensures forall c :: c in Categories(projects)[1..] <==> c in CategoryList(projects)
    ensures forall c :: c in Categories(projects)[1..] <==> exists p :: p in projects && p.category == c
    ensures NoDuplicates(Categories(projects)[1..])
    ensures forall i, j :: 1 <= i < j < |Categories(projects)| ==>
      FirstIndex(CategoryList(projects), Categories(projects)[i]) < FirstIndex(CategoryList(projects), Categories(projects)[j])
  {
    var cs := CategoryList(projects);
    DistinctSpec(cs);
    var d := Categories(projects);
    assert d[1..] == Distinct(cs);
    forall c ensures c in cs <==> exists p :: p in projects && p.category == c {
      if c in cs {
        var i :| 0 <= i < |cs| && cs[i] == c;
        assert projects[i] in projects;
      }
    }
    forall i, j | 1 <= i < j < |d| ensures FirstIndex(cs, d[i]) < FirstIndex(cs, d[j]) {
      assert d[i] == d[1..][i - 1] && d[j] == d[1..][j - 1];
    }
  }

  /** `filteredProjects` for the selected category. */
  function Filtered(projects: seq<Project>, active: string): seq<Project> {
    if active == All then projects else Filter(projects, (p: Project) => p.category == active)
  }

  /**
   * "all" shows the whole list; any other category shows, in their order, exactly
   * the projects of that category, each as often as the list holds it.
   */
  lemma FilteredSpec(projects: seq<Project>, active: string)
    ensures active == All ==> Filtered(projects, active) == projects
    ensures Subsequence(Filtered(projects, active), projects)
    ensures active != All ==>
      forall p :: multiset(Filtered(projects, active))[p] == if p.category == active then multiset(projects)[p] else 0
  {
    if active == All {
      FilterAll(projects, (p: Project) => true);
      FilterSpec(projects, (p: Project) => true);
    } else {
      FilterSpec(projects, (p: Project) => p.category == active);
    }
  }

  /** Every category button, when pressed, shows at least one project. */
  lemma CategoryShowsWork(projects: seq<Project>, c: string)
    requires c in Categories(projects) && projects != []
    ensures |Filtered(projects, c)| > 0
  {
    CategoriesSpec(projects);
    FilteredSpec(projects, c);
    if c != All {
      assert c in Categories(projects)[1..];
      var p :| p in projects && p.category == c;
      assert multiset(projects)[p] > 0;
    }
  }

  /** What `[...x]` spreads out of a document value: an array's items, a string's characters; None where it throws. */
  function Iterated(j: Option<Json>): Option<seq<Json>> {
    match j
    case Some(JArray(items)) => Some(items)
    case Some(JString(s)) => Some(seq(|s|, i requires 0 <= i < |s| => JString([s[i]])))
    case _ => None
  }

  /** The four hero texts the inline editors and the hero image uploader change. */
  datatype HeroField = NameText | TitleText | DescriptionText | ImageUrl

  function HeroKey(f: HeroField): string {
    match f
    case NameText => "name"
    case TitleText => "title"
    case DescriptionText => "description"
    case ImageUrl => "image"
  }

  /** The path each hero editor hands to `updateField`. */
  function HeroPath(f: HeroField): seq<Key> {
    [Name("hero"), Name(HeroKey(f))]
  }

  function WithHeroText(h: PortfolioConfig.Hero, f: HeroField, s: string): PortfolioConfig.Hero {
    match f
    case NameText => h.(name := s)
    case TitleText => h.(title := s)
    case DescriptionText => h.(description := s)
    case ImageUrl => h.(image := s)
  }

  /** The path the uploader of testimonial `index` hands to `updateField`. */
  function TestimonialImagePath(index: nat): seq<Key> {
    [Name("testimonials"), Index(index), Name("image")]
  }

  /** The top-level property `key` of an object, read through the heap: absent or undefined reads as nothing. */
  lemma TopGet(h: Heap, rank: Ranks, r: Ref, key: string)
    requires Ranked(h, rank) && r in h && h[r].ObjCell?
    ensures Child(h, Ptr(r), Name(key)).Some? && InHeap(h, Child(h, Ptr(r), Name(key)).value)
    ensures Get(Snap(h, rank, Ptr(r)), [Name(key)]) ==
      var v := Child(h, Ptr(r), Name(key)).value; if v == Undefined then None else Some(Snap(h, rank, v))
  {
    FieldsInHeap(h, rank, r);
    SnapFieldsLookup(h, rank, h[r].fields, key);
    var fs := h[r].fields;
    if key in fs { KidBelow(h, rank, Ptr(r), fs[key]); }
  }

  /** A fresh array holding old elements and one more reads as their documents with the new one's appended. */
  lemma AppendSnap(h: Heap, rank: Ranks, h': Heap, rank': Ranks, items: seq<Val>, item: Val, a: Ref)
    requires Ranked(h, rank) && Ranked(h', rank') && Grows(h, h') && InHeap(h', item)
    requires forall x :: x in items ==> InHeap(h, x)
    requires a in h' && h'[a] == ArrCell(items + [item])
    ensures Snap(h', rank', Ptr(a)) == JArray(CellSnap(h, rank, ArrCell(items)).items + [Snap(h', rank', item)])
  {
    SnapPtr(h', rank', a);
    var old_ := CellSnap(h, rank, ArrCell(items)).items;
    var new_ := Snap(h', rank', Ptr(a)).items;
    assert |new_| == |items| + 1;
    forall i | 0 <= i < |items| ensures new_[i] == old_[i] {
      assert (items + [item])[i] == items[i] && items[i] in items;
      SnapGrow(h, rank, h', rank', items[i]);
    }
    assert new_[|items|] == Snap(h', rank', item);
    assert new_ == old_ + [Snap(h', rank', item)];
  }

  /** The elements `[...v]` spreads out of a live value; None where spreading throws. */
  function SpreadItems(h: Heap, v: Val): Option<seq<Val>> {
    match v
    case Ptr(r) => if r in h && h[r].ArrCell? then Some(h[r].items) else None
    case Str(s) => Some(seq(|s|, i requires 0 <= i < |s| => Str([s[i]])))
    case _ => None
  }

  /** Spreading a live value gives elements that read as what spreading its document gives. */
  lemma SpreadItemsSnap(h: Heap, rank: Ranks, v: Val)
    requires Ranked(h, rank) && InHeap(h, v)
    ensures SpreadItems(h, v).Some? ==> forall x :: x in SpreadItems(h, v).value ==> InHeap(h, x)
    ensures Iterated(if v == Undefined then None else Some(Snap(h, rank, v))).Some? == SpreadItems(h, v).Some?
    ensures SpreadItems(h, v).Some? ==>
      Iterated(if v == Undefined then None else Some(Snap(h, rank, v))).value == CellSnap(h, rank, ArrCell(SpreadItems(h, v).value)).items
  {
    match v
    case Ptr(r) =>
      SnapPtr(h, rank, r);
    case Str(s) =>
      var items := SpreadItems(h, v).value;
      assert forall i :: 0 <= i < |s| ==> CellSnap(h, rank, ArrCell(items)).items[i] == JString([s[i]]);
    case _ =>
  }

  /** `[...items, item]`: a fresh array holding the spread elements and a freshly built `item`. */
  method AllocAppended(mem: Memory, items: seq<Val>, item: Json) returns (a: Ref)
    requires mem.Valid() && forall x :: x in items ==> InHeap(mem.heap, x)
    modifies mem
    ensures mem.Valid() && Grows(old(mem.heap), mem.heap) && a in mem.heap
    ensures mem.Snapshot(Ptr(a)) == JArray(old(CellSnap(mem.heap, mem.rank, ArrCell(items))).items + [item])
    ensures old(mem.next) <= a && mem.heap[a].ArrCell? && |mem.heap[a].items| == |items| + 1 && mem.heap[a].items[..|items|] == items
    ensures InHeap(mem.heap, mem.heap[a].items[|items|]) && Tree(mem.heap, mem.rank, mem.heap[a].items[|items|])
    ensures Fresh(mem.heap, mem.rank, mem.heap[a].items[|items|], old(mem.next))
  {
    ghost var h0, r0 := mem.heap, mem.rank;
    var v := mem.AllocJson(item);
    ghost var h1, r1 := mem.heap, mem.rank;
    assert forall x :: x in Kids(ArrCell(items + [v])) ==> InHeap(h1, x);
    a := mem.Alloc(ArrCell(items + [v]));
    SnapGrow(h1, r1, mem.heap, mem.rank, v);
    TreeGrow(h1, r1, mem.heap, mem.rank, v);
    assert (items + [v])[..|items|] == items;
    AppendSnap(h0, r0, mem.heap, mem.rank, items, v, a);
  }

  /**
   * `[...x, item]` built from a tree-shaped `x` is a tree, and it reaches only
   * what `x` reaches and cells allocated from `n0` on.
   */
  lemma AppendedTree(h0: Heap, r0: Ranks, h1: Heap, r1: Ranks, x: Val, a: Ref, n0: nat)
    requires Ranked(h0, r0) && Ranked(h1, r1) && Grows(h0, h1) && forall q :: q in h0 ==> q < n0
    requires InHeap(h0, x) && Tree(h0, r0, x) && SpreadItems(h0, x).Some?
    requires n0 <= a && a in h1 && h1[a].ArrCell? && |h1[a].items| == |SpreadItems(h0, x).value| + 1
    requires h1[a].items[..|SpreadItems(h0, x).value|] == SpreadItems(h0, x).value
    requires InHeap(h1, h1[a].items[|SpreadItems(h0, x).value|]) && Tree(h1, r1, h1[a].items[|SpreadItems(h0, x).value|])
    requires Fresh(h1, r1, h1[a].items[|SpreadItems(h0, x).value|], n0)
    ensures Tree(h1, r1, Ptr(a))
    ensures forall s: Ref :: Reaches(h1, r1, Ptr(a), s) ==> n0 <= s || Reaches(h0, r0, x, s)
  {
    var items := SpreadItems(h0, x).value;
    var n := |items|;
    var all := h1[a].items;
    SnapPtr(h1, r1, a);
    forall i | 0 <= i < n
      ensures InHeap(h0, all[i]) && InHeap(h1, all[i]) && Tree(h1, r1, all[i])
      ensures forall s: Ref :: Reaches(h1, r1, all[i], s) ==> s < n0 && Reaches(h0, r0, x, s)
    {
      assert all[i] == items[i];
      SpreadElement(h0, r0, x, i);
      SnapGrow(h0, r0, h1, r1, all[i]);
      TreeGrow(h0, r0, h1, r1, all[i]);
      if x.Ptr? {
        forall s: Ref | Reaches(h0, r0, all[i], s) ensures s < n0 && Reaches(h0, r0, x, s) {
          ReachesBelow(h0, r0, all[i], s);
          ReachesViaKid(h0, r0, x.ref, all[i], s);
        }
      }
    }
    forall y | y in Kids(h1[a]) ensures Tree(h1, r1, y) {
      var k := KidAt(h1[a], y);
    }
    forall k1, k2 | k1 != k2 && At(h1[a], k1).Some? && At(h1[a], k2).Some?
      ensures Apart(h1, r1, At(h1[a], k1).value, At(h1[a], k2).value)
    {
      var i1, i2 := k1.index, k2.index;
      if i1 < n && i2 < n {
        SpreadElement(h0, r0, x, i1);
        SpreadElement(h0, r0, x, i2);
        if x.Ptr? {
          SnapPtr(h0, r0, x.ref);
          assert At(h0[x.ref], Index(i1)) == Some(all[i1]) && At(h0[x.ref], Index(i2)) == Some(all[i2]);
          ApartGrow(h0, r0, h1, r1, all[i1], all[i2]);
        }
      } else if i1 < n {
        assert i2 == n;
      } else {
        assert i1 == n && i2 < n;
      }
    }
    forall s: Ref | Reaches(h1, r1, Ptr(a), s) ensures n0 <= s || Reaches(h0, r0, x, s) {
      if s != a {
        var y :| y in Kids(h1[a]) && Reaches(h1, r1, y, s);
        var k := KidAt(h1[a], y);
      }
    }
  }

  /** Assigning `[...x, item]` at `key` of a tree-shaped configuration leaves the new configuration a tree. */
  lemma AppendKeepsTree(h0: Heap, r0: Ranks, h1: Heap, r1: Ranks, h2: Heap, r2: Ranks,
                        c0: Ref, t: Ref, key: string, x: Val, a: Ref, n0: nat)
    requires Ranked(h0, r0) && Ranked(h1, r1) && Ranked(h2, r2) && Grows(h0, h1) && forall q :: q in h0 ==> q < n0
    requires c0 in h0 && h0[c0].ObjCell? && Tree(h0, r0, Ptr(c0)) && Child(h0, Ptr(c0), Name(key)) == Some(x)
    requires InHeap(h0, x) && SpreadItems(h0, x).Some?
    requires n0 <= a && a in h1 && h1[a].ArrCell? && |h1[a].items| == |SpreadItems(h0, x).value| + 1
    requires h1[a].items[..|SpreadItems(h0, x).value|] == SpreadItems(h0, x).value
    requires InHeap(h1, h1[a].items[|SpreadItems(h0, x).value|]) && Tree(h1, r1, h1[a].items[|SpreadItems(h0, x).value|])
    requires Fresh(h1, r1, h1[a].items[|SpreadItems(h0, x).value|], n0)
    requires t !in h1 && h2 == Assigned(h1, c0, t, [Name(key)], Ptr(a))
    ensures t in h2 && Tree(h2, r2, Ptr(t))
  {
    assert Written([Name(key)]) == [Name(key)] && [Name(key)][..0] == [];
    assert WalkOk(h1, Ptr(c0), [Name(key)]);
    assert h2 == h1[t := WriteCell(h0[c0], Name(key), Ptr(a))];
    assert x != Undefined;
    ChildAt(h0, Ptr(c0), Name(key));
    SnapPtr(h0, r0, c0);
    AtKid(h0[c0], Name(key));
    KidBelow(h0, r0, Ptr(c0), x);
    AppendedTree(h0, r0, h1, r1, x, a, n0);
    assert Grows(h1, h2);
    SnapGrow(h1, r1, h2, r2, Ptr(a));
    TreeGrow(h1, r1, h2, r2, Ptr(a));
    TreeReplace(h0, r0, h2, r2, c0, t, Name(key), Ptr(a), n0);
  }

  /** An element `[...x]` spreads out is a value `x` holds, or a one-character string. */
  lemma SpreadElement(h: Heap, rank: Ranks, x: Val, i: nat)
    requires Ranked(h, rank) && InHeap(h, x) && SpreadItems(h, x).Some? && i < |SpreadItems(h, x).value|
    ensures x.Ptr? ==> SpreadItems(h, x).value[i] in Kids(h[x.ref]) && At(h[x.ref], Index(i)) == Some(SpreadItems(h, x).value[i])
    ensures !x.Ptr? ==> !SpreadItems(h, x).value[i].Ptr?
    ensures InHeap(h, SpreadItems(h, x).value[i])
  {
    if x.Ptr? {
      SnapPtr(h, rank, x.ref);
    }
  }

  class Page {
    const store: Store
    /** The selected category button. */
    var activeCategory: string
    /** The project the detail dialog shows; None while it is closed. */
    var selectedProject: Option<Project>

    constructor (store: Store)
      ensures this.store == store && activeCategory == All && selectedProject == None
    {
      this.store := store;
      activeCategory := All;
      selectedProject := None;
    }

    /** A category button's `onClick`. */
    method SelectCategory(c: string)
      modifies this
      ensures activeCategory == c && selectedProject == old(selectedProject)
    {
      activeCategory := c;
    }

    /** `handleProjectClick`: the detail dialog opens on the clicked project. */
    method ProjectClick(p: Project)
      modifies this
      ensures selectedProject == Some(p) && activeCategory == old(activeCategory)
    {
      selectedProject := Some(p);
    }

    /** `closeModal`: the detail dialog closes. */
    method CloseModal()
      modifies this
      ensures selectedProject == None && activeCategory == old(activeCategory)
    {
      selectedProject := None;
    }

    /**
     * `updateField([key], [...config[key], item])`: the list at `key` with `item`
     * allocated and appended. Spreading anything but an array or a string throws,
     * and then nothing changes.
     */
    method AppendTo(key: string, item: Json) returns (thrown: bool)
      requires store.Valid()
      modifies store, store.mem
      ensures store.Valid() && Grows(old(store.mem.heap), store.mem.heap)
      ensures thrown == Iterated(old(Get(store.Document(), [Name(key)]))).None?
      ensures thrown ==> store.config == old(store.config) && store.storage == old(store.storage)
      ensures !thrown ==>
        Some(store.Document()) ==
        Set(old(store.Document()), [Name(key)], JArray(Iterated(old(Get(store.Document(), [Name(key)]))).value + [item]))
      ensures !thrown ==> store.storage == old(store.storage)[StorageKey := Stored(store.Document())]
      ensures store.DefaultsDocument() == old(store.DefaultsDocument())
      ensures old(store.Shaped()) ==> store.Shaped()
      ensures old(store.DefaultsShaped()) ==> store.DefaultsShaped()
    {
      var mem := store.mem;
      ghost var h0, r0, n0 := mem.heap, mem.rank, mem.next;
      ghost var doc0 := store.Document();
      TopGet(h0, r0, store.config, key);
      var current := Child(mem.heap, Ptr(store.config), Name(key)).value;
      assert Get(doc0, [Name(key)]) == if current == Undefined then None else Some(Snap(h0, r0, current));
      var spread := SpreadItems(mem.heap, current);
      SpreadItemsSnap(h0, r0, current);
      if spread.None? {
        return true;
      }
      var a := AllocAppended(mem, spread.value, item);
      SnapGrow(h0, r0, mem.heap, mem.rank, Ptr(store.config));
      assert !Set(doc0, [Name(key)], mem.Snapshot(Ptr(a))).None?;
      ghost var h1, r1 := mem.heap, mem.rank;
      ghost var c0 := store.config;
      thrown := store.UpdateField([Name(key)], Ptr(a));
      assert Written([Name(key)]) == [Name(key)];
      assert Grows(h1, mem.heap);
      SnapGrow(h0, r0, mem.heap, mem.rank, Ptr(store.defaults));
      if Tree(h0, r0, Ptr(store.defaults)) {
        TreeGrow(h0, r0, mem.heap, mem.rank, Ptr(store.defaults));
      }
      if Tree(h0, r0, Ptr(c0)) {
        AppendKeepsTree(h0, r0, h1, r1, mem.heap, mem.rank, c0, store.config, key, current, a, n0);
      }
    }

    /** `handleAddProject`: the submitted project goes to the end of `projects`. */
    method HandleAddProject(p: Project) returns (thrown: bool)
      requires store.Valid()
      modifies store, store.mem
      ensures store.Valid() && Grows(old(store.mem.heap), store.mem.heap)
      ensures thrown == Iterated(old(Get(store.Document(), [Name("projects")]))).None?
      ensures !thrown ==>
        Some(store.Document()) ==
        Set(old(store.Document()), [Name("projects")],
            JArray(Iterated(old(Get(store.Document(), [Name("projects")]))).value + [PortfolioConfig.ProjectJson(p)]))
      ensures !thrown ==> store.storage == old(store.storage)[StorageKey := Stored(store.Document())]
      ensures old(store.Shaped()) ==> store.Shaped()
      ensures old(store.DefaultsShaped()) ==> store.DefaultsShaped()
    {
      thrown := AppendTo("projects", PortfolioConfig.ProjectJson(p));
    }

    /** `handleAddTestimonial`: the submitted testimonial goes to the end of `testimonials`. */
    method HandleAddTestimonial(t: PortfolioConfig.Testimonial) returns (thrown: bool)
      requires store.Valid()
      modifies store, store.mem
      ensures store.Valid() && Grows(old(store.mem.heap), store.mem.heap)
      ensures thrown == Iterated(old(Get(store.Document(), [Name("testimonials")]))).None?
      ensures !thrown ==>
        Some(store.Document()) ==
        Set(old(store.Document()), [Name("testimonials")],
            JArray(Iterated(old(Get(store.Document(), [Name("testimonials")]))).value + [PortfolioConfig.TestimonialJson(t)]))
      ensures !thrown ==> store.storage == old(store.storage)[StorageKey := Stored(store.Document())]
      ensures old(store.Shaped()) ==> store.Shaped()
      ensures old(store.DefaultsShaped()) ==> store.DefaultsShaped()
    {
      thrown := AppendTo("testimonials", PortfolioConfig.TestimonialJson(t));
    }

    /**
     * A hero editor's `onChange`: `updateField(['hero', field], text)`. The text
     * is assigned into the hero object the old configuration shares, so the old
     * configuration (on a fresh page, the default configuration) reads as the
     * new one.
     */
    method EditHero(f: HeroField, text: string) returns (thrown: bool)
      requires store.Valid()
      modifies store, store.mem
      ensures store.Valid()
      ensures thrown == Set(old(store.Document()), HeroPath(f), JString(text)).None?
      ensures thrown ==> store.config == old(store.config) && store.storage == old(store.storage)
      ensures !thrown && old(store.Alone(HeroPath(f))) ==>
        Some(store.Document()) == Set(old(store.Document()), HeroPath(f), JString(text))
      ensures !thrown && old(store.Shaped()) ==>
        Some(store.Document()) == Set(old(store.Document()), HeroPath(f), JString(text))
      ensures old(store.Shaped()) ==> store.Shaped()
      ensures old(store.DefaultsShaped()) ==> store.DefaultsShaped()
      ensures old(store.config) in store.mem.heap
      ensures !thrown ==> store.mem.Snapshot(Ptr(old(store.config))) == store.Document()
      ensures !thrown && old(store.config) == store.defaults ==> store.DefaultsDocument() == store.Document()
      ensures !thrown ==> store.storage == old(store.storage)[StorageKey := Stored(store.Document())]
    {
      thrown := store.UpdateField(HeroPath(f), Str(text));
    }

    /**
     * The uploader of testimonial `index`: `updateField(['testimonials', index, 'image'], url)`.
     * The address is assigned into the testimonial object the old configuration
     * shares.
     */
    method UploadTestimonialImage(index: nat, url: string) returns (thrown: bool)
      requires store.Valid()
      modifies store, store.mem
      ensures store.Valid()
      ensures thrown == Set(old(store.Document()), TestimonialImagePath(index), JString(url)).None?
      ensures thrown ==> store.config == old(store.config) && store.storage == old(store.storage)
      ensures !thrown && old(store.Alone(TestimonialImagePath(index))) ==>
        Some(store.Document()) == Set(old(store.Document()), TestimonialImagePath(index), JString(url))
      ensures !thrown && old(store.Shaped()) ==>
        Some(store.Document()) == Set(old(store.Document()), TestimonialImagePath(index), JString(url))
      ensures old(store.Shaped()) ==> store.Shaped()
      ensures old(store.DefaultsShaped()) ==> store.DefaultsShaped()
      ensures old(store.config) in store.mem.heap
      ensures !thrown ==> store.mem.Snapshot(Ptr(old(store.config))) == store.Document()
      ensures !thrown && old(store.config) == store.defaults ==> store.DefaultsDocument() == store.Document()
      ensures !thrown ==> store.storage == old(store.storage)[StorageKey := Stored(store.Document())]
    {
      thrown := store.UpdateField(TestimonialImagePath(index), Str(url));
    }
  }

  // ----- What the handlers do to a well-formed portfolio -----

  /** On a well-formed portfolio, adding a project cannot throw and gives the portfolio with that project last. */
  lemma AddProjectTyped(c: PortfolioConfig.Config, p: Project)
    ensures Iterated(Get(PortfolioConfig.ToJson(c), [Name("projects")])) == Some(PortfolioConfig.ToJson(c).fields["projects"].items)
    ensures Set(PortfolioConfig.ToJson(c), [Name("projects")],
                JArray(PortfolioConfig.ToJson(c).fields["projects"].items + [PortfolioConfig.ProjectJson(p)]))
            == Some(PortfolioConfig.ToJson(c.(projects := c.projects + [p])))
    ensures PortfolioConfig.FromJson(PortfolioConfig.ToJson(c.(projects := c.projects + [p]))) == Some(c.(projects := c.projects + [p]))
  {
    var c' := c.(projects := c.projects + [p]);
    var j, j' := PortfolioConfig.ToJson(c), PortfolioConfig.ToJson(c');
    var items := j.fields["projects"].items;
    assert j'.fields["projects"].items == items + [PortfolioConfig.ProjectJson(p)];
    assert j.fields["projects"] == JArray(items);
    assert j.fields[Name("projects").name := JArray(items + [PortfolioConfig.ProjectJson(p)])] == j'.fields;
    PortfolioConfig.RoundTrip(c');
  }

  /** On a well-formed portfolio, adding a testimonial gives the portfolio with that testimonial last. */
  lemma AddTestimonialTyped(c: PortfolioConfig.Config, t: PortfolioConfig.Testimonial)
    ensures Iterated(Get(PortfolioConfig.ToJson(c), [Name("testimonials")])) == Some(PortfolioConfig.ToJson(c).fields["testimonials"].items)
    ensures Set(PortfolioConfig.ToJson(c), [Name("testimonials")],
                JArray(PortfolioConfig.ToJson(c).fields["testimonials"].items + [PortfolioConfig.TestimonialJson(t)]))
            == Some(PortfolioConfig.ToJson(c.(testimonials := c.testimonials + [t])))
    ensures PortfolioConfig.FromJson(PortfolioConfig.ToJson(c.(testimonials := c.testimonials + [t]))) ==
      Some(c.(testimonials := c.testimonials + [t]))
  {
    var c' := c.(testimonials := c.testimonials + [t]);
    var j, j' := PortfolioConfig.ToJson(c), PortfolioConfig.ToJson(c');
    var items := j.fields["testimonials"].items;
    assert j'.fields["testimonials"].items == items + [PortfolioConfig.TestimonialJson(t)];
    assert j.fields["testimonials"] == JArray(items);
    assert j.fields["testimonials" := JArray(items + [PortfolioConfig.TestimonialJson(t)])] == j'.fields;
    PortfolioConfig.RoundTrip(c');
  }

  /** Setting one hero text in a hero's document. */
  lemma HeroTextSet(h: PortfolioConfig.Hero, f: HeroField, s: string)
    ensures PortfolioConfig.HeroJson(h).fields[HeroKey(f) := JString(s)] == PortfolioConfig.HeroJson(WithHeroText(h, f, s)).fields
  {
  }

  /** On a well-formed portfolio, a hero edit changes that one hero text and nothing else. */
  lemma EditHeroTyped(c: PortfolioConfig.Config, f: HeroField, s: string)
    ensures Set(PortfolioConfig.ToJson(c), HeroPath(f), JString(s)) ==
      Some(PortfolioConfig.ToJson(c.(hero := WithHeroText(c.hero, f, s))))
  {
    var h' := WithHeroText(c.hero, f, s);
    var j, j' := PortfolioConfig.ToJson(c), PortfolioConfig.ToJson(c.(hero := h'));
    var hj := PortfolioConfig.HeroJson(c.hero);
    assert HeroPath(f)[1..] == [Name(HeroKey(f))];
    HeroTextSet(c.hero, f, s);
    assert Set(hj, [Name(HeroKey(f))], JString(s)) == Some(PortfolioConfig.HeroJson(h'));
    assert j.fields["hero" := PortfolioConfig.HeroJson(h')] == j'.fields;
  }

  /**
   * On a well-formed portfolio, uploading the image of testimonial `index`
   * changes that testimonial's image only; past the end of the list it throws.
   */
  lemma UploadTestimonialImageTyped(c: PortfolioConfig.Config, index: nat, url: string)
    ensures index >= |c.testimonials| ==> Set(PortfolioConfig.ToJson(c), TestimonialImagePath(index), JString(url)) == None
    ensures index < |c.testimonials| ==>
      Set(PortfolioConfig.ToJson(c), TestimonialImagePath(index), JString(url)) ==
      Some(PortfolioConfig.ToJson(c.(testimonials := c.testimonials[index := c.testimonials[index].(image := url)])))
  {
    var path := TestimonialImagePath(index);
    var j := PortfolioConfig.ToJson(c);
    var items := j.fields["testimonials"].items;
    assert path[1..] == [Index(index), Name("image")] && path[1..][1..] == [Name("image")];
    if index < |c.testimonials| {
      var t := c.testimonials[index];
      var t' := t.(image := url);
      var c' := c.(testimonials := c.testimonials[index := t']);
      var j' := PortfolioConfig.ToJson(c');
      var tj := PortfolioConfig.TestimonialJson(t);
      var tj' := PortfolioConfig.TestimonialJson(t');
      assert items[index] == tj;
      assert tj.fields["image" := JString(url)] == tj'.fields;
      assert Set(tj, [Name("image")], JString(url)) == Some(tj');
      assert Set(JArray(items), path[1..], JString(url)) == Some(JArray(items[index := tj']));
      assert items[index := tj'] == j'.fields["testimonials"].items;
      assert j.fields["testimonials" := JArray(items[index := tj'])] == j'.fields;
    }
  }
}
