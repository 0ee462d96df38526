/**
 A memory cache: three lists of slabs, without the per-processor caches
 (kernel/memory/heap.c).
 */
module SlabCache {
  import opened Sequences
  import opened SlabLayout
  import opened Slabs

  // ------------------------------------------------- the lists, as values

  /** The three lists and the number of free objects in them. */
  datatype Lists = Lists(free: seq<Slab>, partial: seq<Slab>, full: seq<Slab>, available: int)

  function Added(l: seq<Slab>, s: Slab): seq<Slab> {
    l + [s]
  }

  /** How many objects are free in a slab; 0 if nothing is known about it. */
  ghost function FreeOf(counts: map<Slab, nat>, s: Slab): nat {
    if s in counts then counts[s] else 0
  }

  /** Free objects in all the slabs of a list. */
  ghost function FreeIn(l: seq<Slab>, counts: map<Slab, nat>): nat {
    if l == [] then 0 else FreeIn(l[..|l| - 1], counts) + FreeOf(counts, l[|l| - 1])
  }

  /** A list holds exactly the slabs whose free objects number from `lo` to `hi`. */
  ghost predicate Holds(l: seq<Slab>, counts: map<Slab, nat>, lo: nat, hi: int) {
    && Distinct(l)
    && (forall s :: s in l ==> s in counts && lo <= counts[s] <= hi)
    && (forall s :: s in counts && lo <= counts[s] <= hi ==> s in l)
  }

  /** The lists partition the slabs by how many of their objects are free, and the counter
      is the sum over them. */
  ghost predicate InOrder(l: Lists, counts: map<Slab, nat>, n: nat) {
    && Holds(l.free, counts, n, n)
    && Holds(l.partial, counts, 1, n - 1)
    && Holds(l.full, counts, 0, 0)
    && (forall s :: s in counts ==> counts[s] <= n)
    && l.available == FreeIn(l.free, counts) + FreeIn(l.partial, counts)
  }

  lemma {:induction false} FreeInConcat(a: seq<Slab>, b: seq<Slab>, counts: map<Slab, nat>)
    ensures FreeIn(a + b, counts) == FreeIn(a, counts) + FreeIn(b, counts)
    decreases b
  {
    if b == [] {
      assert a + b == a;
    } else {
      FreeInConcat(a, b[..|b| - 1], counts);
      assert (a + b)[..|a + b| - 1] == a + b[..|b| - 1];
    }
  }

  lemma FreeInOne(s: Slab, counts: map<Slab, nat>)
    ensures FreeIn([s], counts) == FreeOf(counts, s)
  {
    assert [s][..0] == [];
  }

  lemma {:induction false} FreeInOthers(l: seq<Slab>, counts: map<Slab, nat>, s: Slab, v: nat)
    requires s !in l
    ensures FreeIn(l, counts[s := v]) == FreeIn(l, counts)
    decreases l
  {
    if l != [] { FreeInOthers(l[..|l| - 1], counts, s, v); }
  }

  lemma WithoutIs(l: seq<Slab>, k: nat, counts: map<Slab, nat>)
    requires k < |l| && Distinct(l)
    ensures Distinct(Without(l, k)) && l[k] !in Without(l, k)
    ensures forall x :: x in l && x != l[k] ==> x in Without(l, k)
    ensures forall x :: x in Without(l, k) ==> x in l
    ensures FreeIn(l, counts) == FreeOf(counts, l[k]) + FreeIn(Without(l, k), counts)
  {
    hide FreeIn;
    var r := Without(l, k);
    forall x | x in l && x != l[k] ensures x in r {
      var i :| 0 <= i < |l| && l[i] == x;
      assert x == r[if i < k then i else i - 1];
    }
    var before, behind := l[..k], l[k + 1..];
    assert l == before + ([l[k]] + behind);
    FreeInConcat(before, [l[k]] + behind, counts);
    FreeInConcat([l[k]], behind, counts);
    FreeInOne(l[k], counts);
    FreeInConcat(before, behind, counts);
  }

  lemma AddedIs(l: seq<Slab>, s: Slab, counts: map<Slab, nat>)
    requires Distinct(l) && s !in l
    ensures Distinct(Added(l, s)) && s in Added(l, s)
    ensures forall x :: x in l ==> x in Added(l, s)
    ensures forall x :: x in Added(l, s) ==> x == s || x in l
    ensures FreeIn(Added(l, s), counts) == FreeIn(l, counts) + FreeOf(counts, s)
  {
    hide FreeIn;
    FreeInConcat(l, [s], counts);
    FreeInOne(s, counts);
  }

  /** A list that the slab is taken from, because its count has left the range. */
  lemma Leaves(l: seq<Slab>, k: nat, counts: map<Slab, nat>, lo: nat, hi: int, v: nat)
    requires Holds(l, counts, lo, hi) && k < |l| && !(lo <= v <= hi)
    ensures Holds(Without(l, k), counts[l[k] := v], lo, hi)
    ensures FreeIn(Without(l, k), counts[l[k] := v]) == FreeIn(l, counts) - counts[l[k]]
  {
    hide FreeIn, Without, Distinct;
    WithoutIs(l, k, counts);
    FreeInOthers(Without(l, k), counts, l[k], v);
  }

  /** A list that the slab is put on. */
  lemma Enters(l: seq<Slab>, s: Slab, counts: map<Slab, nat>, lo: nat, hi: int, v: nat)
    requires Holds(l, counts, lo, hi) && s !in l && lo <= v <= hi
    ensures Holds(Added(l, s), counts[s := v], lo, hi)
    ensures FreeIn(Added(l, s), counts[s := v]) == FreeIn(l, counts) + v
  {
    hide FreeIn, Added, Distinct;
    AddedIs(l, s, counts[s := v]);
    FreeInOthers(l, counts, s, v);
  }

  /** A list that the slab stays on. */
  lemma Stays(l: seq<Slab>, k: nat, counts: map<Slab, nat>, lo: nat, hi: int, v: nat)
    requires Holds(l, counts, lo, hi) && k < |l| && lo <= v <= hi
    ensures Holds(l, counts[l[k] := v], lo, hi)
    ensures FreeIn(l, counts[l[k] := v]) == FreeIn(l, counts) - counts[l[k]] + v
  {
    hide FreeIn, Without, Distinct;
    WithoutIs(l, k, counts);
    WithoutIs(l, k, counts[l[k] := v]);
    FreeInOthers(Without(l, k), counts, l[k], v);
  }

  /** A list that the slab is not on before or after. */
  lemma NotConcerned(l: seq<Slab>, s: Slab, counts: map<Slab, nat>, lo: nat, hi: int, v: nat)
    requires Holds(l, counts, lo, hi) && s !in l && !(lo <= v <= hi)
    ensures Holds(l, counts[s := v], lo, hi)
    ensures FreeIn(l, counts[s := v]) == FreeIn(l, counts)
  {
    hide FreeIn, Distinct;
    FreeInOthers(l, counts, s, v);
  }

  // ------------------------------------------------- what the operations do to the lists

  /** MemoryCacheAllocate: the slab at the front gives an object. */
  function Taken(l: Lists, n: nat, left: nat): Lists
    requires l.partial != [] || l.free != []
  {
    if l.partial != [] then
      if left == 0 then
        l.(partial := Without(l.partial, 0), full := Added(l.full, l.partial[0]), available := l.available - 1)
      else l.(available := l.available - 1)
    else
      var s := l.free[0];
      var l1 := l.(free := Without(l.free, 0), available := l.available - 1);
      if left == 0 then l1.(full := Added(l.full, s)) else l1.(partial := Added(l.partial, s))
  }

  function Front(l: Lists): Slab
    requires l.partial != [] || l.free != []
  {
    if l.partial != [] then l.partial[0] else l.free[0]
  }

  lemma TakenInOrder(l: Lists, counts: map<Slab, nat>, n: nat)
    requires InOrder(l, counts, n) && n > 0 && (l.partial != [] || l.free != [])
    ensures
      var s := Front(l);
      s in counts && counts[s] > 0 && InOrder(Taken(l, n, counts[s] - 1), counts[s := counts[s] - 1], n)
  {
    hide FreeIn, Distinct, Added, Without;
    var s := Front(l);
    var v := counts[s] - 1;
    if l.partial != [] {
      NotConcerned(l.free, s, counts, n, n, v);
      if v == 0 {
        Leaves(l.partial, 0, counts, 1, n - 1, v);
        Enters(l.full, s, counts, 0, 0, v);
      } else {
        Stays(l.partial, 0, counts, 1, n - 1, v);
        NotConcerned(l.full, s, counts, 0, 0, v);
      }
    } else {
      Leaves(l.free, 0, counts, n, n, v);
      if v == 0 {
        NotConcerned(l.partial, s, counts, 1, n - 1, v);
        Enters(l.full, s, counts, 0, 0, v);
      } else {
        Enters(l.partial, s, counts, 1, n - 1, v);
        NotConcerned(l.full, s, counts, 0, 0, v);
      }
    }
  }

  /** A new slab, which has given its first object. */
  function Extended(l: Lists, s: Slab, n: nat): Lists
    requires n > 0
  {
    if n == 1 then l.(full := Added(l.full, s))
    else l.(partial := Added(l.partial, s), available := l.available + (n - 1))
  }

  lemma ExtendedInOrder(l: Lists, s: Slab, counts: map<Slab, nat>, n: nat)
    requires InOrder(l, counts, n) && n > 0 && s !in counts
    ensures InOrder(Extended(l, s, n), counts[s := n - 1], n)
  {
    hide FreeIn, Distinct, Added;
    NotConcerned(l.free, s, counts, n, n, n - 1);
    if n == 1 {
      NotConcerned(l.partial, s, counts, 1, n - 1, n - 1);
      Enters(l.full, s, counts, 0, 0, n - 1);
    } else {
      Enters(l.partial, s, counts, 1, n - 1, n - 1);
      NotConcerned(l.full, s, counts, 0, 0, n - 1);
    }
  }

  /** MemoryCacheFree, when slab `k` of the partial ones has `now` free objects afterwards. */
  function GivenBack(l: Lists, k: nat, n: nat, now: nat): Lists
    requires k < |l.partial|
  {
    var l1 := l.(available := l.available + 1);
    if now == n then l1.(partial := Without(l.partial, k), free := Added(l.free, l.partial[k])) else l1
  }

  lemma GivenBackInOrder(l: Lists, k: nat, counts: map<Slab, nat>, n: nat)
    requires InOrder(l, counts, n) && k < |l.partial|
    ensures
      var s := l.partial[k];
      s in counts && counts[s] < n && InOrder(GivenBack(l, k, n, counts[s] + 1), counts[s := counts[s] + 1], n)
  {
    hide FreeIn, Distinct, Added, Without;
    var s := l.partial[k];
    var v := counts[s] + 1;
    NotConcerned(l.full, s, counts, 0, 0, v);
    if v == n {
      Leaves(l.partial, k, counts, 1, n - 1, v);
      Enters(l.free, s, counts, n, n, v);
    } else {
      Stays(l.partial, k, counts, 1, n - 1, v);
      NotConcerned(l.free, s, counts, n, n, v);
    }
  }

  /** The same for slab `k` of the full ones. */
  function Reopened(l: Lists, k: nat, n: nat): Lists
    requires k < |l.full|
  {
    var l1 := l.(full := Without(l.full, k), available := l.available + 1);
    if n == 1 then l1.(free := Added(l.free, l.full[k])) else l1.(partial := Added(l.partial, l.full[k]))
  }

  lemma ReopenedInOrder(l: Lists, k: nat, counts: map<Slab, nat>, n: nat)
    requires InOrder(l, counts, n) && k < |l.full| && n > 0
    ensures var s := l.full[k]; s in counts && counts[s] == 0 && InOrder(Reopened(l, k, n), counts[s := 1], n)
  {
    hide FreeIn, Distinct, Added, Without;
    var s := l.full[k];
    Leaves(l.full, k, counts, 0, 0, 1);
    if n == 1 {
      Enters(l.free, s, counts, n, n, 1);
      NotConcerned(l.partial, s, counts, 1, n - 1, 1);
    } else {
      Enters(l.partial, s, counts, 1, n - 1, 1);
      NotConcerned(l.free, s, counts, n, n, 1);
    }
  }

  /** With free objects there is a slab to take one from. */
  lemma AvailableMeans(l: Lists, counts: map<Slab, nat>, n: nat)
    requires InOrder(l, counts, n) && l.available > 0
    ensures l.partial != [] || l.free != []
  {}

  lemma AvailablePositive(l: Lists, counts: map<Slab, nat>, n: nat)
    requires InOrder(l, counts, n) && n > 0 && (l.partial != [] || l.free != [])
    ensures l.available > 0
  {
    hide Distinct, Without;
    if l.partial != [] { WithoutIs(l.partial, 0, counts); } else { WithoutIs(l.free, 0, counts); }
  }

  lemma ProductBelow(i: nat, n: nat, u: nat)
    requires i < n
    ensures Product(i, u) + u <= Product(n, u)
  {
    ProductMonotone(i + 1, n, u);
  }

  // ------------------------------------------------- the cache

  class Cache {
    const g: Geometry
    const layout: Layout
    ghost const round: nat     // the search round that chose the layout
    const single: bool         // HEAP_SINGLE_SLAB
    var freeSlabs: seq<Slab>
    var partial: seq<Slab>
    var full: seq<Slab>
    var available: nat         // NumberOfFreeObjects
    ghost var slabs: set<Slab>
    ghost var counts: map<Slab, nat>

    function Span(): nat { Product(layout.pages, g.page) }

    /** Different memory, in the bitmaps and in the pages. */
    ghost predicate Apart(s: Slab, t: Slab) {
      s.bitmap != t.bitmap && (s.base + Span() <= t.base || t.base + Span() <= s.base)
    }

    ghost predicate SlabOk(s: Slab)
      reads s, s.bitmap
    {
      && s.Valid(layout.count) && s.base > 0
      && Sound(g, layout, s.base) && s.address == FirstObject(g, layout, s.base)
    }

    /** What MemoryCacheConstruct provides. */
    ghost predicate Configured() {
      g.Constructed() && ChosenAt(g, round, layout) && layout.count > 0
    }

    /** The slabs are in order and use different memory. */
    ghost predicate Placed()
      reads this`slabs, slabs, set s | s in slabs :: s.bitmap
    {
      && (forall s :: s in slabs ==> SlabOk(s))
      && (forall s, t :: s in slabs && t in slabs && s != t ==> Apart(s, t))
    }

    ghost predicate Counted()
      reads this`slabs, this`counts, slabs`free
    {
      && (forall s :: s in slabs ==> s in counts && counts[s] == s.free)
      && (forall s :: s in counts ==> s in slabs)
    }

    ghost function View(): Lists
      reads this`freeSlabs, this`partial, this`full, this`available
    {
      Lists(freeSlabs, partial, full, available)
    }

    ghost predicate Valid()
      reads this, slabs, set s | s in slabs :: s.bitmap
    {
      Configured() && Placed() && Counted() && InOrder(View(), counts, layout.count)
    }

    constructor (g: Geometry, layout: Layout, ghost round: nat, single: bool)
      requires g.Constructed() && ChosenAt(g, round, layout)
      ensures Valid() && slabs == {} && available == 0
      ensures this.g == g && this.layout == layout && this.round == round && this.single == single
    {
      this.g, this.layout, this.round, this.single := g, layout, round, single;
      freeSlabs, partial, full, available, slabs, counts := [], [], [], 0, {}, map[];
    }

    /** One object of a slab is taken into use; the lists are left to the caller. */
    method UseOne(slab: Slab) returns (index: nat)
      requires Placed() && slab in slabs && slab.free > 0
      modifies slab, slab.bitmap
      ensures Placed() && slab.free == old(slab.free) - 1
      ensures index < |old(slab.used)| == layout.count && !old(slab.used)[index]
        && slab.used == old(slab.used)[index := true]
      ensures forall j :: 0 <= j < index ==> old(slab.used)[j]
    {
      assert SlabOk(slab);
      var i := slab.AllocateIndex(layout.count);
      index := i;
      forall s | s in slabs ensures SlabOk(s) {
        if s != slab {
          assert Apart(s, slab);
          assert old(SlabOk(s));
        }
      }
    }

    /** One object of a slab is given back; the lists are left to the caller. */
    method ReleaseOne(slab: Slab, index: nat)
      requires Placed() && slab in slabs && index < |slab.used| && slab.used[index]
      modifies slab, slab.bitmap
      ensures Placed() && slab.free == old(slab.free) + 1
      ensures slab.used == old(slab.used)[index := false]
    {
      assert SlabOk(slab);
      slab.FreeIndex(index, layout.count);
      forall s | s in slabs ensures SlabOk(s) {
        if s != slab {
          assert Apart(s, slab);
          assert old(SlabOk(s));
        }
      }
    }

    /** __SlabCreate on new pages, and the first object of the new slab; the lists are left to the caller. */
    method NewSlab(base: nat) returns (slab: Slab, index: nat)
      requires Configured() && Placed() && base > 0 && Sound(g, layout, base)
      requires forall s :: s in slabs ==> base + Span() <= s.base || s.base + Span() <= base
      modifies this`slabs
      ensures Placed() && fresh(slab) && fresh(slab.bitmap) && slabs == old(slabs) + {slab} && slab.base == base
      ensures slab.free == layout.count - 1
      ensures index < layout.count && slab.used == seq(layout.count, _ => false)[index := true]
    {
      hide Configured;
      slab := new Slab(base, FirstObject(g, layout, base), layout.count, layout.structureSize - g.header);
      var i := slab.AllocateIndex(layout.count);
      index := i;
      slabs := slabs + {slab};
      assert SlabOk(slab);
      forall s | s in slabs && s != slab ensures SlabOk(s) && Apart(s, slab) && Apart(slab, s) {
        assert s in old(slabs) && old(SlabOk(s));
      }
    }

    lemma FrontOk()
      requires Valid() && (partial != [] || freeSlabs != [])
      ensures var s := Front(View()); s in slabs && s.free > 0 && counts[s] == s.free
    {
      hide Configured, Placed, FreeIn, Distinct;
      UnitPositive();
    }

    /** An object of the first slab that has one. */
    method TakeOne() returns (slab: Slab, index: nat)
      requires Valid() && (partial != [] || freeSlabs != [])
      modifies this`freeSlabs, this`partial, this`full, this`available, this`counts, slabs,
        set s | s in slabs :: s.bitmap
      ensures Valid() && slab == old(Front(View())) && slab in slabs && index < |old(slab.used)| == layout.count
      ensures !old(slab.used)[index] && slab.used == old(slab.used)[index := true]
      ensures forall j :: 0 <= j < index ==> old(slab.used)[j]
      ensures forall s :: s in slabs && s != slab ==> s.used == old(s.used)
    {
      hide Placed, Configured, InOrder, Without, Added;
      UnitPositive();
      FrontOk();
      TakenInOrder(View(), counts, layout.count);
      AvailablePositive(View(), counts, layout.count);
      ghost var was := View();
      if partial != [] {
        slab := partial[0];
        if slab.free == 1 { partial := Without(partial, 0); }
      } else {
        slab := freeSlabs[0];
        freeSlabs := Without(freeSlabs, 0);
        if slab.free > 1 { partial := Added(partial, slab); }
      }
      index := UseOne(slab);
      Relist(slab, was);
    }

    /** The slab that has given an object goes to the full ones when it has no other. */
    method Relist(slab: Slab, ghost was: Lists)
      requires Configured() && Placed() && slab in slabs && available > 0 && was.available == available
      requires was.partial != [] || was.free != []
      requires forall s :: s in slabs ==> s in counts && (s != slab ==> counts[s] == s.free)
      requires forall s :: s in counts ==> s in slabs
      requires InOrder(Taken(was, layout.count, slab.free), counts[slab := slab.free], layout.count)
      requires Taken(was, layout.count, slab.free) ==
        Lists(freeSlabs, partial, if slab.free == 0 then Added(full, slab) else full, available - 1)
      modifies this`full, this`available, this`counts
      ensures Valid()
    {
      hide Placed, Configured, InOrder, Taken, Added;
      counts := counts[slab := slab.free];
      if slab.free == 0 { full := Added(full, slab); }
      available := available - 1;
    }

    /** An object of a new slab. */
    method TakeNew(base: nat) returns (slab: Slab, index: nat)
      requires Valid() && base > 0 && Sound(g, layout, base)
      requires forall s :: s in slabs ==> base + Span() <= s.base || s.base + Span() <= base
      modifies this
      ensures Valid() && fresh(slab) && fresh(slab.bitmap) && slabs == old(slabs) + {slab} && slab.base == base
      ensures index < layout.count && slab.used == seq(layout.count, _ => false)[index := true]
    {
      hide Placed, Configured, InOrder, Added;
      UnitPositive();
      ghost var was, before := View(), counts;
      slab, index := NewSlab(base);
      counts := counts[slab := slab.free];
      ExtendedInOrder(was, slab, before, layout.count);
      if slab.free == 0 {
        full := Added(full, slab);
      } else {
        partial := Added(partial, slab);
        available := available + (layout.count - 1);
      }
      assert View() == Extended(was, slab, layout.count);
    }

    /** MEMORY_SLAB_ELEMENT: where an object of a slab lies. */
    function ObjectAt(s: Slab, i: nat): nat { s.address + Product(i, g.Unit()) }

    /** MemoryCacheAllocate; `base` is where new pages would come from, 0 if there are none. */
    method Allocate(base: nat) returns (r: nat, ghost slab: Slab?, ghost index: nat)
      requires Valid()
      requires base != 0 ==>
        Sound(g, layout, base) && forall s :: s in slabs ==> base + Span() <= s.base || s.base + Span() <= base
      modifies this, slabs, set s | s in slabs :: s.bitmap
      ensures Valid()
      ensures r == 0 <==> old(available) == 0 && (single || base == 0)
      ensures r == 0 ==> slabs == old(slabs) && forall s :: s in slabs ==> s.used == old(s.used)
      ensures r != 0 ==>
        && slab != null && slab in slabs && index < |slab.used| == layout.count && r == ObjectAt(slab, index)
        && (slab in old(slabs) <==> old(available) != 0)
        && (slab in old(slabs) ==>
              slabs == old(slabs) && |old(slab.used)| == layout.count
              && !old(slab.used)[index] && slab.used == old(slab.used)[index := true]
              && (forall j :: 0 <= j < index ==> old(slab.used)[j])
              && if old(partial) != [] then slab == old(partial)[0]
                 else old(freeSlabs) != [] && slab == old(freeSlabs)[0])
        && (slab !in old(slabs) ==>
              fresh(slab) && fresh(slab.bitmap) && slabs == old(slabs) + {slab} && slab.base == base != 0
              && slab.used == seq(layout.count, _ => false)[index := true])
        && forall s :: s in old(slabs) && s != slab ==> s.used == old(s.used)
    {
      hide Configured, Placed, InOrder;
      slab, index := null, 0;
      var from: Slab;
      var i: nat;
      UnitPositive();
      if available != 0 {
        SomethingToTake();
        from, i := TakeOne();
      } else if !single && base != 0 {
        from, i := TakeNew(base);
      } else {
        return 0, null, 0;
      }
      slab, index := from, i;
      r := ObjectAt(from, i);
      AddressPositive(from);
    }

    lemma SomethingToTake()
      requires Valid() && available > 0
      ensures partial != [] || freeSlabs != []
    {
      AvailableMeans(View(), counts, layout.count);
    }

    lemma UnitPositive()
      requires Valid()
      ensures g.Unit() > 0 && layout.count > 0
    {}

    lemma AddressPositive(s: Slab)
      requires Valid() && s in slabs
      ensures 0 < s.base <= s.address && s.address + Product(layout.count, g.Unit()) <= s.base + Span()
      ensures s.Valid(layout.count) && g.Unit() > 0
    {
      assert SlabOk(s);
      RoundUpBounds(s.base + layout.structureSize, g.alignment);
    }

    /** Two objects of a cache never share a byte. */
    lemma ObjectsApart(s: Slab, i: nat, t: Slab, j: nat)
      requires Valid() && s in slabs && t in slabs && i < layout.count && j < layout.count && (s != t || i != j)
      ensures ObjectAt(s, i) + g.Unit() <= ObjectAt(t, j) || ObjectAt(t, j) + g.Unit() <= ObjectAt(s, i)
    {
      hide Product, Valid;
      AddressPositive(s);
      AddressPositive(t);
      var u, n := g.Unit(), layout.count;
      if s == t {
        if i < j { ProductBelow(i, j, u); } else { ProductBelow(j, i, u); }
      } else {
        SlabsApart(s, t);
        ProductBelow(i, n, u);
        ProductBelow(j, n, u);
      }
    }

    lemma SlabsApart(s: Slab, t: Slab)
      requires Valid() && s in slabs && t in slabs && s != t
      ensures Apart(s, t)
    {}

    /** __SlabContainsAddress: the number of the object that an address lies in, or -1. */
    function IndexOf(s: Slab, address: nat): int
      requires g.Unit() > 0
    {
      if s.address <= address < s.address + Product(layout.count, g.Unit())
      then Quotient(address - s.address, g.Unit())
      else -1
    }

    lemma IndexInside(s: Slab, address: nat)
      requires g.Unit() > 0
      ensures var i := IndexOf(s, address);
        if i == -1 then address < s.address || s.address + Product(layout.count, g.Unit()) <= address
        else 0 <= i < layout.count && ObjectAt(s, i) <= address < ObjectAt(s, i) + g.Unit()
    {
      var i, u := IndexOf(s, address), g.Unit();
      if i != -1 {
        QuotientSmaller(address - s.address, u);
        if i >= layout.count { ProductMonotone(layout.count, i, u); }
      }
    }

    /** An address lies in one slab at most. */
    lemma OneSlab(s: Slab, t: Slab, address: nat)
      requires Valid() && s in slabs && t in slabs && s != t && g.Unit() > 0 && IndexOf(s, address) != -1
      ensures IndexOf(t, address) == -1
    {
      AddressPositive(s);
      AddressPositive(t);
      assert Apart(s, t);
    }

    /** __FreeInSlab for a partial slab, which may become a free one. */
    method ReleasePartial(k: nat, index: nat)
      requires Valid() && k < |partial| && index < |partial[k].used| && partial[k].used[index]
      modifies this`partial, this`freeSlabs, this`available, this`counts, partial[k], partial[k].bitmap
      ensures Valid() && old(partial[k]).used == old(partial[k].used)[index := false]
      ensures available == old(available) + 1
    {
      hide Placed, Configured, InOrder, Without, Added;
      var slab := partial[k];
      GivenBackInOrder(View(), k, counts, layout.count);
      ghost var was := View();
      ReleaseOne(slab, index);
      counts := counts[slab := slab.free];
      if slab.free == layout.count {
        partial := Without(partial, k);
        freeSlabs := Added(freeSlabs, slab);
      }
      available := available + 1;
      assert View() == GivenBack(was, k, layout.count, slab.free);
    }

    /** __FreeInSlab for a full slab, which becomes a partial one, or a free one if it has one object. */
    method ReleaseFull(k: nat, index: nat)
      requires Valid() && k < |full| && index < |full[k].used| && full[k].used[index]
      modifies this`partial, this`freeSlabs, this`full, this`available, this`counts, full[k], full[k].bitmap
      ensures Valid() && old(full[k]).used == old(full[k].used)[index := false]
      ensures available == old(available) + 1
    {
      hide Placed, Configured, InOrder, Without, Added;
      UnitPositive();
      var slab := full[k];
      ReopenedInOrder(View(), k, counts, layout.count);
      ghost var was := View();
      ReleaseOne(slab, index);
      counts := counts[slab := slab.free];
      full := Without(full, k);
      if layout.count == 1 {
        freeSlabs := Added(freeSlabs, slab);
      } else {
        partial := Added(partial, slab);
      }
      available := available + 1;
      assert View() == Reopened(was, k, layout.count);
    }

    /** Which slab of a list an address lies in. */
    method FindIn(l: seq<Slab>, address: nat) returns (k: nat)
      requires g.Unit() > 0
      ensures k <= |l| && (k < |l| ==> IndexOf(l[k], address) != -1)
      ensures forall j :: 0 <= j < k ==> IndexOf(l[j], address) == -1
    {
      k := 0;
      while k < |l|
        invariant k <= |l| && forall j :: 0 <= j < k ==> IndexOf(l[j], address) == -1
      {
        if IndexOf(l[k], address) != -1 { return; }
        k := k + 1;
      }
    }

    /** __CacheContainsAddress: partial slabs first, then full ones. */
    method Contains(address: nat) returns (found: bool)
      requires g.Unit() > 0
      ensures found <==> exists s :: (s in partial || s in full) && IndexOf(s, address) != -1
    {
      hide IndexOf;
      var k := FindIn(partial, address);
      if k < |partial| {
        assert partial[k] in partial;
        return true;
      }
      k := FindIn(full, address);
      found := k < |full|;
      if found { assert full[k] in full; }
    }

    /** The address lies in an object that is in use, or in no slab of this cache. */
    ghost predicate MayFree(address: nat)
      requires g.Unit() > 0
      reads this, slabs
    {
      forall s :: s in slabs ==>
        var i := IndexOf(s, address);
        i != -1 ==> 0 <= i < |s.used| && s.used[i]
    }

    /** MemoryCacheFree: gives back the object that the address lies in. */
    method Free(address: nat) returns (ghost slab: Slab?)
      requires Valid() && g.Unit() > 0 && MayFree(address)
      modifies this, slabs, set s | s in slabs :: s.bitmap
      ensures Valid() && slabs == old(slabs)
      ensures slab == null ==> forall s :: s in slabs ==> IndexOf(s, address) == -1 && s.used == old(s.used)
      ensures slab != null ==>
        && slab in slabs && 0 <= IndexOf(slab, address) < |old(slab.used)|
        && slab.used == old(slab.used)[IndexOf(slab, address) := false] && available == old(available) + 1
        && forall s :: s in slabs && s != slab ==> s.used == old(s.used)
    {
      hide Configured, Placed, FreeIn, IndexOf;
      slab := null;
      var k := FindIn(partial, address);
      if k < |partial| {
        slab := partial[k];
        ReleasePartial(k, IndexOf(partial[k], address));
        return;
      }
      k := FindIn(full, address);
      if k < |full| {
        slab := full[k];
        ReleaseFull(k, IndexOf(full[k], address));
        return;
      }
      forall s | s in slabs ensures IndexOf(s, address) == -1 {
        NotInFree(s, address);
      }
    }

    lemma NotInFree(s: Slab, address: nat)
      requires Valid() && g.Unit() > 0 && MayFree(address) && s in slabs
      requires forall j :: 0 <= j < |partial| ==> IndexOf(partial[j], address) == -1
      requires forall j :: 0 <= j < |full| ==> IndexOf(full[j], address) == -1
      ensures IndexOf(s, address) == -1
    {
      hide Configured, FreeIn, IndexOf;
      assert SlabOk(s);
      ClearAll(s.used);
      assert s in freeSlabs || s in partial || s in full;
    }
  }

  /**
   MemoryCacheConstruct without an initial slab: the padding, the layout and empty lists; null
   when the search for a layout ends in its failed assert.
   */
  method Construct(page: nat, header: nat, size: nat, alignment: nat, minimum: nat, overrun: bool, single: bool)
    returns (c: Cache?)
    requires page >= 4096 && 0 < header <= 1024 && (size > 0 || overrun)
    ensures var g := ConstructedFor(page, header, size, alignment, minimum, overrun);
      if c == null then forall j: nat :: j <= 9 ==> !Accepted(g, Try(g, j))
      else fresh(c) && c.Valid() && c.g == g && c.single == single && c.slabs == {} && c.available == 0
  {
    hide Try;
    var g := ConstructedFor(page, header, size, alignment, minimum, overrun);
    var layout := CalculateSlabSize(g);
    if layout.None? { return null; }
    ghost var round: nat :| ChosenAt(g, round, layout.value);
    c := new Cache(g, layout.value, round, single);
  }
}
