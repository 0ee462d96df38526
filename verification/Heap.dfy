/** kmalloc and kfree over the fixed-size caches (kernel/memory/heap.c). */
module Heap {
  import opened Powers
  import opened SlabLayout
  import opened Slabs
  import opened SlabCache

  const PAGE: nat := 4096

  /** The sizes of the default caches. */
  const SIZES: seq<nat> :=
    [32, 64, 128, 256, 512, 1024, 2048, 4096, 8192, 16384, 32768, 65536, 131072, 262144]

  /** The smallest size that is enough is number `k`. */
  predicate Selects(size: nat, k: nat) {
    k < |SIZES| && size <= SIZES[k] && forall j :: 0 <= j < |SIZES| && size <= SIZES[j] ==> SIZES[k] <= SIZES[j]
  }

  lemma SelectsOnce(size: nat, k: nat)
    requires Selects(size, k)
    ensures forall l: nat :: Selects(size, l) ==> l == k
  {
    forall l: nat | Selects(size, l) ensures l == k {
      assert SIZES[k] == SIZES[l];
    }
  }

  /** __CacheFindFixedSize: the smallest size that is enough, |SIZES| if there is none. */
  method FindFixedSize(size: nat) returns (k: nat)
    ensures k == |SIZES| <==> size > 262144
    ensures k != |SIZES| ==> Selects(size, k)
  {
    k := 0;
    while k < |SIZES|
      invariant k <= |SIZES| && forall j :: 0 <= j < k ==> SIZES[j] < size
    {
      if size <= SIZES[k] {
        assert forall j :: k <= j < |SIZES| ==> SIZES[k] <= SIZES[j];
        return;
      }
      k := k + 1;
    }
    assert SIZES[13] == 262144;
  }

  // ------------------------------------------------------------- the layouts of the default caches

  /** What kmalloc creates a cache with: the alignment is the size. */
  function DefaultGeometry(header: nat, k: nat): Geometry
    requires k < |SIZES|
  {
    Geometry(PAGE, header, SIZES[k], SIZES[k], 0, 0)
  }

  /** How many pages a slab of the default cache number `k` has. */
  function DefaultPages(k: nat): nat {
    if k < 7 then 1 else if k < 9 then 16 else Pow2(k - 7)
  }

  lemma {:induction false} SizesArePowers(k: nat)
    requires k < |SIZES|
    ensures SIZES[k] == Pow2(k + 5)
  {
    if k == 0 {
      assert Pow2(5) == 32;
    } else {
      SizesArePowers(k - 1);
    }
  }

  lemma DefaultConstructed(header: nat, k: nat)
    requires k < |SIZES| && 0 < header <= 1024
    ensures DefaultGeometry(header, k).Constructed()
  {
    ModUnique(SIZES[k], SIZES[k], 1, 0);
  }

  /** The search ends in round 0 for objects up to a page, and otherwise as soon as one fits. */
  lemma DefaultRound(header: nat, k: nat)
    requires k < |SIZES| && 0 < header <= 1024
    ensures DefaultGeometry(header, k).Constructed()
    ensures var g, i: nat := DefaultGeometry(header, k), if k < 7 then 0 else k - 7;
      Accepted(g, Try(g, i)) && forall j: nat :: j < i ==> !Accepted(g, Try(g, j))
  {
    var g := DefaultGeometry(header, k);
    DefaultConstructed(header, k);
    SizesArePowers(k);
    assert PAGE == Pow2(12);
    if k < 4 {
      SmallAccepted(g);
    } else if k < 7 {
      Pow2Sum(7 - k, k + 5);
      LargeTrial(g, 0, Pow2(7 - k), 0);
    } else {
      Pow2Sum(k - 7, 12);
      LargeTrial(g, k - 7, 1, 0);
      forall j: nat | j < k - 7 ensures !Accepted(g, Try(g, j)) {
        Pow2Sum(j, 12);
        Pow2Monotone(j + 13, k + 5);
        LargeTrial(g, j, 0, Pow2(j + 12));
      }
    }
  }

  /** Small objects leave less than one of them. */
  lemma SmallAccepted(g: Geometry)
    requires g.Constructed() && Small(g) && g.page == PAGE && 32 <= g.Unit() <= 256 && g.minimum == 0
    requires g.alignment <= 256
    ensures Accepted(g, Try(g, 0))
  {
    var u := g.Unit();
    var t := Try(g, 0);
    assert Product(Pow2(0), PAGE) == PAGE;
    QuotientSmaller(PAGE, u);
    if Quotient(PAGE, u) > 128 { ProductMonotone(129, Quotient(PAGE, u), u); }
    QuotientSmaller(PAGE - t.reserved, u);
  }

  /** Every default cache has a layout, with so many pages for a slab. */
  lemma DefaultLayout(header: nat, k: nat, i: nat, layout: Layout)
    requires k < |SIZES| && 0 < header <= 1024
    requires DefaultGeometry(header, k).Constructed() && ChosenAt(DefaultGeometry(header, k), i, layout)
    ensures layout.pages == DefaultPages(k)
  {
    hide Try;
    DefaultRound(header, k);
    var g, first: nat := DefaultGeometry(header, k), if k < 7 then 0 else k - 7;
    assert i == first;
  }

  /** Objects are aligned to whatever divides their alignment and the start of their slab. */
  lemma AlignedTo(g: Geometry, layout: Layout, base: nat, i: nat, a: nat)
    requires g.Constructed() && a > 0 && g.alignment > 0 && g.alignment % a == 0 && base % a == 0
    ensures (FirstObject(g, layout, base) + Product(i, g.Unit())) % a == 0
  {
    hide Product, RoundUp;
    var first := FirstObject(g, layout, base);
    if layout.onSite {
      RoundUpIsMultiple(base + layout.structureSize, g.alignment);
      ModThrough(first, g.alignment, a);
    }
    ModThrough(g.Unit(), g.alignment, a);
    ProductMod(i, g.Unit(), a);
    SumMod(first, Product(i, g.Unit()), a);
  }

  /** On whole pages, objects of up to a page are at multiples of their size, larger ones at those of the page. */
  lemma DefaultAligned(header: nat, k: nat, layout: Layout, base: nat, i: nat)
    requires k < |SIZES| && 0 < header <= 1024 && base % PAGE == 0
    ensures
      var g := DefaultGeometry(header, k);
      var a := FirstObject(g, layout, base) + Product(i, g.Unit());
      a % (if SIZES[k] <= 4096 then SIZES[k] else 4096) == 0
  {
    hide Product, FirstObject, ConstructedFor;
    DefaultConstructed(header, k);
    PageAndSize(k);
    if SIZES[k] <= 4096 {
      ModThrough(base, 4096, SIZES[k]);
      MultipleMod(1, SIZES[k]);
      AlignedTo(DefaultGeometry(header, k), layout, base, i, SIZES[k]);
    } else {
      AlignedTo(DefaultGeometry(header, k), layout, base, i, 4096);
    }
  }

  lemma PageAndSize(k: nat)
    requires k < |SIZES|
    ensures SIZES[k] > 0 && if SIZES[k] <= 4096 then 4096 % SIZES[k] == 0 else SIZES[k] % 4096 == 0
  {
    SizesArePowers(k);
    if k <= 7 {
      Pow2Sum(7 - k, k + 5);
      MultipleMod(Pow2(7 - k), SIZES[k]);
    } else {
      Pow2Sum(k - 7, 12);
      MultipleMod(Pow2(k - 7), 4096);
    }
  }

  lemma ModThrough(x: nat, a: nat, b: nat)
    requires a > 0 && b > 0 && x % a == 0 && a % b == 0
    ensures x % b == 0
  {
    assert x == x / a * a;
    ProductMod(x / a, a, b);
  }

  /** A slab of a default cache may be on any page. */
  lemma DefaultSound(header: nat, k: nat, i: nat, layout: Layout, base: nat)
    requires k < |SIZES| && DefaultGeometry(header, k).Constructed()
    requires ChosenAt(DefaultGeometry(header, k), i, layout) && base % PAGE == 0
    ensures Sound(DefaultGeometry(header, k), layout, base)
  {
    hide Try, Product, Sound;
    var g := DefaultGeometry(header, k);
    if Small(g) {
      SizesArePowers(k);
      Pow2Sum(7 - k, k + 5);
      MultipleMod(Pow2(7 - k), SIZES[k]);
    }
    LayoutSound(g, i, layout, base);
  }

  // ------------------------------------------------------------- two caches

  /** Slabs of two caches that have memory of their own: objects, bitmaps and pages. */
  ghost predicate SlabsSeparate(c: Cache, s: Slab, d: Cache, t: Slab) {
    && s != t && s.bitmap != t.bitmap
    && (s.base + c.Span() <= t.base || t.base + d.Span() <= s.base)
  }

  ghost predicate Separate(c: Cache, cs: set<Slab>, d: Cache, ds: set<Slab>) {
    c != d && forall s, t :: s in cs && t in ds ==> SlabsSeparate(c, s, d, t)
  }

  /** Pages that no slab of this cache uses. */
  ghost predicate PagesApart(base: nat, length: nat, d: Cache, ds: set<Slab>) {
    forall t :: t in ds ==> base + length <= t.base || t.base + d.Span() <= base
  }

  lemma SeparateSymmetric(c: Cache, cs: set<Slab>, d: Cache, ds: set<Slab>)
    requires Separate(c, cs, d, ds)
    ensures Separate(d, ds, c, cs)
  {
    forall t, s | t in ds && s in cs ensures SlabsSeparate(d, t, c, s) {
      assert SlabsSeparate(c, s, d, t);
    }
  }

  lemma SeparateEmpty(c: Cache, d: Cache, ds: set<Slab>)
    requires c != d
    ensures Separate(c, {}, d, ds) && Separate(d, ds, c, {})
  {}

  lemma SeparateFrame(c: Cache, cs: set<Slab>, d: Cache, ds: set<Slab>)
    requires Separate(c, cs, d, ds)
    ensures c != d && cs !! ds && forall s, t :: s in cs && t in ds ==> s.bitmap != t.bitmap
  {
    forall s, t | s in cs && t in ds ensures s != t && s.bitmap != t.bitmap {
      assert SlabsSeparate(c, s, d, t);
    }
  }

  /** A slab on new pages is separate as well. */
  lemma SeparateMore(c: Cache, cs: set<Slab>, s: Slab, d: Cache, ds: set<Slab>)
    requires Separate(c, cs, d, ds) && s !in ds && PagesApart(s.base, c.Span(), d, ds)
    requires forall t :: t in ds ==> t.bitmap != s.bitmap
    ensures Separate(c, cs + {s}, d, ds) && Separate(d, ds, c, cs + {s})
  {
    SeparateSymmetric(c, cs + {s}, d, ds);
  }

  /** Object `i` of a slab of this cache is in use. */
  ghost predicate InUse(c: Cache, s: Slab, i: nat)
    reads c, s
  {
    s in c.slabs && i < |s.used| && s.used[i]
  }

  lemma SlabStart(c: Cache, s: Slab)
    requires c.Valid() && s in c.slabs
    ensures s.address == FirstObject(c.g, c.layout, s.base)
  {
    assert c.SlabOk(s);
  }

  /** Objects of separate caches share no byte. */
  lemma SeparateObjects(c: Cache, s: Slab, i: nat, d: Cache, t: Slab, j: nat)
    requires c.Valid() && d.Valid() && Separate(c, c.slabs, d, d.slabs)
    requires s in c.slabs && t in d.slabs && i < c.layout.count && j < d.layout.count
    ensures c.ObjectAt(s, i) + c.g.Unit() <= d.ObjectAt(t, j) || d.ObjectAt(t, j) + d.g.Unit() <= c.ObjectAt(s, i)
  {
    hide Product, Cache.Valid;
    c.AddressPositive(s);
    d.AddressPositive(t);
    ProductBelow(i, c.layout.count, c.g.Unit());
    ProductBelow(j, d.layout.count, d.g.Unit());
  }

  /** The number found for an address inside an object is that of the object. */
  lemma IndexOfObject(c: Cache, s: Slab, i: nat, address: nat)
    requires c.g.Unit() > 0 && i < c.layout.count && c.ObjectAt(s, i) <= address < c.ObjectAt(s, i) + c.g.Unit()
    ensures c.IndexOf(s, address) == i
  {
    ProductBelow(i, c.layout.count, c.g.Unit());
    ModUnique(address - s.address, c.g.Unit(), i, address - c.ObjectAt(s, i));
  }

  /** A slab with an object in use is not among the free ones. */
  lemma InUseIsListed(c: Cache, s: Slab, i: nat)
    requires c.Valid() && InUse(c, s, i)
    ensures s in c.partial || s in c.full
  {
    assert c.SlabOk(s);
    ClearAll(s.used);
  }

  // ------------------------------------------------------------- the default caches

  /** An object that kmalloc has handed out: number of its cache, slab and number in it. */
  datatype Home = Nowhere | Home(cache: nat, slab: Slab, index: nat)

  /** The pages of a slab: where they begin, and the number of the cache. */
  datatype Run = Run(base: nat, cache: nat)

  function Length(k: nat): nat {
    Product(DefaultPages(k), PAGE)
  }

  predicate RunsApart(a: Run, b: Run) {
    a.base + Length(a.cache) <= b.base || b.base + Length(b.cache) <= a.base
  }

  datatype Reply = Ignored | Freed | Unknown

  class DefaultCaches {
    const header: nat              // sizeof(MemorySlab_t)
    var caches: seq<Cache?>        // null until the first kmalloc of that size
    ghost var held: map<nat, Home> // by address, what was handed out and not given back
    ghost var pages: set<Run>      // the pages of all slabs
    ghost var repr: set<object>

    ghost predicate Owns(c: Cache)
      reads this`repr, c
    {
      c in repr && c.slabs <= repr && forall s :: s in c.slabs ==> s.bitmap in repr
    }

    /** A default cache in order, of size number `k`. */
    ghost predicate Kept(k: nat, c: Cache)
      requires k < |SIZES|
      reads c, c.slabs, set s | s in c.slabs :: s.bitmap
    {
      c.Valid() && c.g == DefaultGeometry(header, k) && c.layout.pages == DefaultPages(k) && !c.single
    }

    ghost predicate CachesValid()
      reads this`caches, this`repr, repr
    {
      && this !in repr && |caches| == |SIZES| && 0 < header <= 1024
      && (forall k :: 0 <= k < |caches| && caches[k] != null ==>
            caches[k] in repr && Owns(caches[k]) && Kept(k, caches[k]))
      && (forall k, l :: 0 <= k < |caches| && 0 <= l < |caches| && k != l && caches[k] != null && caches[l] != null ==>
            caches[k] in repr && caches[l] in repr && Separate(caches[k], caches[k].slabs, caches[l], caches[l].slabs))
    }

    /** This object of this slab is in use. */
    ghost predicate IsUsed(h: Home)
      reads this`caches, this`repr, repr
    {
      && h.Home? && h.cache < |caches| && caches[h.cache] != null && caches[h.cache] in repr
      && h.slab in repr && InUse(caches[h.cache], h.slab, h.index)
    }

    ghost function AddressOf(h: Home): nat
      requires h.Home? && h.cache < |caches| && caches[h.cache] != null
      reads this`caches
    {
      caches[h.cache].ObjectAt(h.slab, h.index)
    }

    /** What is held is what is in use. */
    ghost predicate HeldIsUsed()
      reads this`held, this`caches, this`repr, repr
    {
      && (forall a :: a in held ==> IsUsed(held[a]) && AddressOf(held[a]) == a)
      && (forall k: nat, s: Slab, i: nat :: s in repr && IsUsed(Home(k, s, i)) ==>
            AddressOf(Home(k, s, i)) in held && held[AddressOf(Home(k, s, i))] == Home(k, s, i))
    }

    ghost predicate HasSlab(k: nat, s: Slab)
      reads this`caches, this`repr, repr
    {
      k < |caches| && caches[k] != null && caches[k] in repr && s in caches[k].slabs
    }

    /** There is a slab on these pages. */
    ghost predicate Backed(p: Run)
      reads this`caches, this`repr, repr
    {
      exists s: Slab :: s in repr && HasSlab(p.cache, s) && s.base == p.base
    }

    /** The pages are those of the slabs. */
    ghost predicate PagesAreSlabs()
      reads this`pages, this`caches, this`repr, repr
    {
      && (forall k: nat, s: Slab :: s in repr && HasSlab(k, s) ==> Run(s.base, k) in pages)
      && (forall p :: p in pages ==> Backed(p))
    }

    ghost predicate PagesAligned()
      reads this`pages
    {
      forall p :: p in pages ==> p.base % PAGE == 0
    }

    ghost predicate Valid()
      reads this, repr
    {
      CachesValid() && HeldIsUsed() && PagesAreSlabs() && PagesAligned()
    }

    /** Pages for a slab of size number `k` that are not in use. */
    ghost predicate Clear(base: nat, k: nat)
      reads this`pages
    {
      base > 0 && base % PAGE == 0 && forall p :: p in pages ==> RunsApart(Run(base, k), p)
    }

    constructor (header: nat)
      requires 0 < header <= 1024
      ensures Valid() && held == map[] && pages == {} && repr == {} && this.header == header
    {
      this.header := header;
      caches := seq(|SIZES|, _ => null);
      held, pages, repr := map[], {}, {};
    }

    /** The same, seen from the slabs. */
    ghost predicate Unused(base: nat, k: nat)
      reads this`caches, this`repr, repr
    {
      base > 0 && base % PAGE == 0
      && forall l :: 0 <= l < |caches| && caches[l] != null && caches[l] in repr ==>
           PagesApart(base, Length(k), caches[l], caches[l].slabs)
    }

    lemma ClearIsUnused(base: nat, k: nat)
      requires CachesValid() && PagesAreSlabs() && Clear(base, k)
      ensures Unused(base, k)
    {
      hide Separate, Cache.Valid, Product;
      forall l: nat | l < |caches| && caches[l] != null
        ensures PagesApart(base, Length(k), caches[l], caches[l].slabs)
      {
        assert Kept(l, caches[l]) && Owns(caches[l]);
        forall s | s in caches[l].slabs ensures RunsApart(Run(base, k), Run(s.base, l)) {
          assert HasSlab(l, s);
        }
      }
    }

    /** MemoryCacheCreate for a size that is asked for the first time. */
    method Create(k: nat)
      requires Valid() && k < |SIZES| && caches[k] == null
      modifies this
      ensures Valid() && held == old(held) && pages == old(pages) && caches == old(caches)[k := caches[k]]
      ensures caches[k] != null && fresh(caches[k]) && repr == old(repr) + {caches[k]}
      ensures caches[k].slabs == {} && caches[k].available == 0
    {
      hide Kept, Separate, PagesAligned;
      var c := NewCache(k);
      forall l | 0 <= l < |caches| && caches[l] != null
        ensures Separate(c, {}, caches[l], caches[l].slabs) && Separate(caches[l], caches[l].slabs, c, {})
      {
        SeparateEmpty(c, caches[l], caches[l].slabs);
      }
      caches := caches[k := c];
      repr := repr + {c};
      assert CachesValid();
      assert PagesAreSlabs() by {
        forall p | p in pages ensures Backed(p) { assert old(Backed(p)); }
      }
    }

    /** The cache has given this object of this slab, which may be a new one. */
    twostate predicate Gives(c: Cache, new slab: Slab?, index: nat)
      reads c, c.slabs
    {
      && slab != null && slab in c.slabs && index < |slab.used| && slab.used[index]
      && old(c.slabs) <= c.slabs <= old(c.slabs) + {slab} && Same(c, slab)
      && (slab in old(c.slabs) ==>
            |old(slab.used)| == |slab.used| && !old(slab.used)[index] && slab.used == old(slab.used)[index := true])
      && (slab !in old(c.slabs) ==> fresh(slab) && forall i :: 0 <= i < |slab.used| && slab.used[i] ==> i == index)
    }

    /** The cache has its slabs with the same objects in use, but for one of them. */
    twostate predicate Same(c: Cache, new slab: Slab?)
      reads c, c.slabs
    {
      old(c.slabs) <= c.slabs && forall s :: s in old(c.slabs) && s != slab ==> s.used == old(s.used)
    }

    /** The other caches are in order, with the same slabs and the same objects in use. */
    twostate predicate OthersSame(k: nat)
      requires old(CachesValid()) && caches == old(caches) && repr == old(repr)
      reads this, repr
    {
      forall l :: 0 <= l < |caches| && l != k && caches[l] != null ==>
        caches[l].slabs == old(caches[l].slabs) && Kept(l, caches[l]) && Same(caches[l], null)
    }

    /** MemoryCacheAllocate on one of the caches. */
    method TakeHere(k: nat, base: nat) returns (r: nat, ghost slab: Slab?, ghost index: nat)
      requires CachesValid() && k < |SIZES| && caches[k] != null && (base != 0 ==> Unused(base, k))
      modifies repr
      ensures OthersSame(k) && Kept(k, caches[k])
      ensures r == 0 <==> old(caches[k].available) == 0 && base == 0
      ensures r == 0 ==> caches[k].slabs == old(caches[k].slabs) && Same(caches[k], null)
      ensures r != 0 ==> Gives(caches[k], slab, index) && r == caches[k].ObjectAt(slab, index)
      ensures r != 0 ==> (slab in old(caches[k].slabs) <==> old(caches[k].available) != 0)
      ensures r != 0 && slab !in old(caches[k].slabs) ==> fresh(slab.bitmap) && slab.base == base != 0
    {
      hide Cache.Valid, InOrder, SlabsSeparate, Separate, Sound, PagesApart;
      var c := caches[k];
      if base != 0 { NewPagesFit(base, k); }
      r, slab, index := c.Allocate(base);
      forall l | 0 <= l < |caches| && l != k && caches[l] != null
        ensures Kept(l, caches[l]) && caches[l].slabs == old(caches[l].slabs) && Same(caches[l], null)
      {
        var d := caches[l];
        assert old(Separate(c, c.slabs, d, d.slabs)) && old(Kept(l, d));
        SeparateFrame(c, old(c.slabs), d, old(d.slabs));
      }
    }

    /** The same, with the slabs of all caches kept in order. */
    method Take(k: nat, base: nat) returns (r: nat, ghost slab: Slab?, ghost index: nat)
      requires CachesValid() && k < |SIZES| && caches[k] != null && (base != 0 ==> Unused(base, k))
      modifies this`repr, repr
      ensures CachesValid() && fresh(repr - old(repr)) && old(repr) <= repr
      ensures r == 0 <==> old(caches[k].available) == 0 && base == 0
      ensures r == 0 ==> caches[k].slabs == old(caches[k].slabs) && Same(caches[k], null)
      ensures r != 0 ==> Gives(caches[k], slab, index) && r == caches[k].ObjectAt(slab, index)
      ensures r != 0 ==>
        caches[k].slabs == old(caches[k].slabs) + if old(caches[k].available) == 0 then {slab} else {}
      ensures r != 0 && old(caches[k].available) == 0 ==> slab.base == base
      ensures forall l :: 0 <= l < |caches| && l != k && caches[l] != null ==>
                caches[l].slabs == old(caches[l].slabs) && Same(caches[l], null)
    {
      hide Kept, Separate, SlabsSeparate, PagesApart, Unused;
      if base != 0 { NewPagesFit(base, k); }
      r, slab, index := TakeHere(k, base);
      var c := caches[k];
      if r != 0 && slab !in old(c.slabs) {
        repr := repr + {slab, slab.bitmap};
        forall l | 0 <= l < |caches| && l != k && caches[l] != null
          ensures Separate(c, c.slabs, caches[l], caches[l].slabs) && Separate(caches[l], caches[l].slabs, c, c.slabs)
        {
          assert c.slabs == old(c.slabs) + {slab};
          SeparateMore(c, old(c.slabs), slab, caches[l], caches[l].slabs);
        }
      } else {
        assert c.slabs == old(c.slabs);
      }
    }

    /** The cache of this size, if there is one, has no object to give. */
    ghost predicate NothingFree(k: nat)
      requires CachesValid() && k < |SIZES|
      reads this`caches, this`repr, repr
    {
      caches[k] == null || caches[k].available == 0
    }

    /** The objects in use are those that were, and `h`. */
    twostate predicate UsedGrows(new h: Home)
      reads this`caches, this`repr, repr
    {
      && (forall l: nat, s: Slab, i: nat :: s in old(repr) && old(IsUsed(Home(l, s, i))) ==>
            IsUsed(Home(l, s, i)) && Home(l, s, i) != h)
      && (forall l: nat, s: Slab, i: nat :: s in repr && IsUsed(Home(l, s, i)) && Home(l, s, i) != h ==>
            s in old(repr) && old(IsUsed(Home(l, s, i))))
    }

    /** The slabs are those that were, and a new one if `more`, which is that of `h`. */
    twostate predicate SlabsGrow(k: nat, base: nat, new h: Home, more: bool)
      reads this`caches, this`repr, repr
    {
      && (h.Home? && more ==> h.slab in repr && HasSlab(k, h.slab) && h.slab.base == base)
      && (forall l: nat, s: Slab :: s in old(repr) && old(HasSlab(l, s)) ==> HasSlab(l, s))
      && (forall l: nat, s: Slab :: s in repr && HasSlab(l, s) ==>
            (s in old(repr) && old(HasSlab(l, s))) || (h.Home? && l == k && s == h.slab && more))
      && (h.Home? && more ==> Backed(Run(base, k))) && (forall p :: old(Backed(p)) ==> Backed(p))
    }

    /** The objects in use are those that were, and one more. */
    method TakeMore(k: nat, base: nat) returns (r: nat, ghost h: Home)
      requires CachesValid() && k < |SIZES| && caches[k] != null && (base != 0 ==> Unused(base, k))
      modifies this`repr, repr
      ensures CachesValid() && fresh(repr - old(repr)) && old(repr) <= repr
      ensures caches == old(caches) && held == old(held) && pages == old(pages) && this !in repr
      ensures r == 0 <==> old(NothingFree(k)) && base == 0
      ensures if r == 0 then h == Nowhere else IsUsed(h) && AddressOf(h) == r && h.cache == k
      ensures UsedGrows(h) && SlabsGrow(k, base, h, old(NothingFree(k)))
    {
      hide Kept, Separate, Unused;
      ghost var slab: Slab?, index: nat;
      r, slab, index := Take(k, base);
      h := if r == 0 then Nowhere else Home(k, slab, index);
      forall p | old(Backed(p)) ensures Backed(p) {
        var s: Slab :| s in old(repr) && old(HasSlab(p.cache, s)) && s.base == p.base;
        assert HasSlab(p.cache, s);
      }
    }

    /** The pages are those that were, and those of a new slab. */
    method TakePages(k: nat, base: nat) returns (r: nat, ghost h: Home)
      requires CachesValid() && PagesAreSlabs() && k < |SIZES| && caches[k] != null && (base != 0 ==> Clear(base, k))
      modifies this`pages, this`repr, repr
      ensures CachesValid() && PagesAreSlabs() && fresh(repr - old(repr)) && old(repr) <= repr
      ensures caches == old(caches) && held == old(held) && this !in repr
      ensures r == 0 <==> old(NothingFree(k)) && base == 0
      ensures if r == 0 then h == Nowhere else IsUsed(h) && AddressOf(h) == r && h.cache == k
      ensures UsedGrows(h)
      ensures pages == old(pages) + if old(NothingFree(k)) && base != 0 then {Run(base, k)} else {}
    {
      hide CachesValid, HasSlab, Unused, UsedGrows, Backed, NothingFree;
      ghost var more := NothingFree(k) && base != 0;
      if base != 0 { ClearIsUnused(base, k); }
      r, h := TakeMore(k, base);
      if more { pages := pages + {Run(base, k)}; }
    }

    /** kmalloc on a cache that exists. */
    method AllocateFrom(k: nat, base: nat) returns (r: nat)
      requires Valid() && k < |SIZES| && caches[k] != null && (base != 0 ==> Clear(base, k))
      modifies this`held, this`pages, this`repr, repr
      ensures Valid() && fresh(repr - old(repr))
      ensures r == 0 <==> old(NothingFree(k)) && base == 0
      ensures r == 0 ==> held == old(held)
      ensures r != 0 ==> r !in old(held) && r in held && held == old(held)[r := held[r]]
      ensures r != 0 ==> held[r].Home? && held[r].cache == k
      ensures pages == old(pages) + if old(NothingFree(k)) && base != 0 then {Run(base, k)} else {}
    {
      hide CachesValid, PagesAreSlabs, NothingFree, InUse;
      ghost var h: Home;
      r, h := TakePages(k, base);
      if r != 0 {
        forall a | a in held ensures a != r && IsUsed(held[a]) && AddressOf(held[a]) == a {
          assert old(IsUsed(held[a]));
          UsedApart(held[a], h);
        }
        held := held[r := h];
      }
    }

    /** Two objects in use, of whatever sizes, share no byte. */
    lemma UsedApart(h: Home, g: Home)
      requires CachesValid() && IsUsed(h) && IsUsed(g) && h != g
      ensures AddressOf(h) + SIZES[h.cache] <= AddressOf(g) || AddressOf(g) + SIZES[g.cache] <= AddressOf(h)
      ensures 0 < AddressOf(h) != AddressOf(g)
    {
      hide Separate, Cache.Valid;
      var c, d := caches[h.cache], caches[g.cache];
      assert Kept(h.cache, c) && Kept(g.cache, d);
      c.AddressPositive(h.slab);
      d.AddressPositive(g.slab);
      if h.cache == g.cache {
        c.ObjectsApart(h.slab, h.index, g.slab, g.index);
      } else {
        SeparateObjects(c, h.slab, h.index, d, g.slab, g.index);
      }
    }

    /**
     kmalloc; `base` is where new pages would come from, 0 if there are none. A block of the
     smallest default size that is enough joins what is held, and nothing else of it changes;
     NULL exactly above 262144 bytes, or when no object is free and there are no pages. The
     pages come into use exactly when no object is free.
     */
    method Kmalloc(size: nat, base: nat) returns (r: nat)
      requires Valid() && (base != 0 ==> forall k: nat :: Selects(size, k) ==> Clear(base, k))
      modifies this, repr
      ensures Valid() && fresh(repr - old(repr))
      ensures size > 262144 ==> r == 0
      ensures forall k: nat :: Selects(size, k) ==> (r == 0 <==> base == 0 && old(NothingFree(k)))
      ensures r == 0 ==> held == old(held) && pages == old(pages)
      ensures r != 0 ==> r !in old(held) && r in held && held == old(held)[r := held[r]]
      ensures r != 0 ==> held[r].Home? && Selects(size, held[r].cache)
      ensures forall k: nat :: Selects(size, k) ==>
        pages == old(pages) + if base != 0 && old(NothingFree(k)) then {Run(base, k)} else {}
    {
      hide HeldIsUsed, PagesAreSlabs, Kept, Separate;
      var k := FindFixedSize(size);
      if k == |SIZES| { return 0; }
      SelectsOnce(size, k);
      if caches[k] == null { Create(k); }
      r := AllocateFrom(k, base);
    }

    /** Blocks that are held share no byte, and none is at address 0. */
    lemma HeldApart(a: nat, b: nat)
      requires Valid() && a in held && b in held && a != b
      ensures IsUsed(held[a]) && IsUsed(held[b]) && a > 0
      ensures a + SIZES[held[a].cache] <= b || b + SIZES[held[b].cache] <= a
    {
      hide CachesValid;
      UsedApart(held[a], held[b]);
    }

    /** A block of up to a page is at a multiple of its size, a larger one at a multiple of the page size. */
    lemma HeldAligned(a: nat)
      requires Valid() && a in held
      ensures IsUsed(held[a]) && held[a].cache < |SIZES|
      ensures var size := SIZES[held[a].cache]; a % (if size <= 4096 then size else 4096) == 0
    {
      hide Separate, Cache.Valid, Owns, Backed, Product, FirstObject, DefaultPages;
      var h := held[a];
      assert Kept(h.cache, caches[h.cache]);
      var c := caches[h.cache];
      assert HasSlab(h.cache, h.slab);
      assert Run(h.slab.base, h.cache) in pages;
      SlabStart(c, h.slab);
      DefaultAligned(header, h.cache, c.layout, h.slab.base, h.index);
    }

    /** The address lies in an object that is in use, or in no slab at all. */
    ghost predicate MayFree(address: nat)
      requires CachesValid()
      reads this`caches, this`repr, repr
    {
      forall k :: 0 <= k < |caches| && caches[k] != null ==> caches[k].g.Unit() > 0 && caches[k].MayFree(address)
    }

    /** The address lies in this object. */
    ghost predicate Covers(h: Home, address: nat)
      requires h.Home? && h.cache < |SIZES| && h.cache < |caches| && caches[h.cache] != null
      reads this`caches
    {
      AddressOf(h) <= address < AddressOf(h) + SIZES[h.cache]
    }

    /**
     The search of kfree: the first cache with a partial or full slab around the address, and
     none exactly when no object in use is around it.
     */
    method Route(address: nat) returns (k: nat)
      requires CachesValid() && MayFree(address)
      ensures k <= |caches|
      ensures k < |caches| ==>
        caches[k] != null && exists s :: s in caches[k].slabs && caches[k].IndexOf(s, address) != -1
      ensures k == |caches| ==>
        forall l: nat, s: Slab, i: nat :: s in repr && IsUsed(Home(l, s, i)) ==> !Covers(Home(l, s, i), address)
    {
      hide Separate, Kept;
      k := 0;
      while k < |caches|
        invariant k <= |caches|
        invariant forall l: nat, s: Slab, i: nat :: s in repr && l < k && IsUsed(Home(l, s, i)) ==>
                    !Covers(Home(l, s, i), address)
      {
        if caches[k] != null {
          var found := caches[k].Contains(address);
          if found {
            ListedIsThere(k);
            return;
          }
          forall s: Slab, i: nat | s in repr && IsUsed(Home(k, s, i)) ensures !Covers(Home(k, s, i), address) {
            UsedIsFound(Home(k, s, i), address);
          }
        }
        k := k + 1;
      }
    }

    lemma ListedIsThere(k: nat)
      requires CachesValid() && k < |caches| && caches[k] != null
      ensures forall s :: s in caches[k].partial || s in caches[k].full ==> s in caches[k].slabs
    {
      assert Kept(k, caches[k]);
    }

    lemma UsedIsFound(h: Home, address: nat)
      requires CachesValid() && IsUsed(h) && caches[h.cache].g.Unit() > 0
      ensures h.slab in caches[h.cache].partial || h.slab in caches[h.cache].full
      ensures Covers(h, address) ==> caches[h.cache].IndexOf(h.slab, address) == h.index
    {
      hide Separate, Cache.Valid;
      var c := caches[h.cache];
      assert Kept(h.cache, c);
      InUseIsListed(c, h.slab, h.index);
      c.AddressPositive(h.slab);
      if Covers(h, address) { IndexOfObject(c, h.slab, h.index, address); }
    }

    /** MemoryCacheFree on one of the caches. */
    method GiveHere(k: nat, address: nat) returns (ghost slab: Slab)
      requires CachesValid() && k < |SIZES| && caches[k] != null && MayFree(address)
      requires exists s :: s in caches[k].slabs && caches[k].IndexOf(s, address) != -1
      modifies repr
      ensures OthersSame(k) && Kept(k, caches[k]) && caches[k].slabs == old(caches[k].slabs)
      ensures slab in caches[k].slabs && Same(caches[k], slab)
      ensures caches[k].g.Unit() == SIZES[k] && 0 <= caches[k].IndexOf(slab, address) < |old(slab.used)|
      ensures old(slab.used)[caches[k].IndexOf(slab, address)]
      ensures slab.used == old(slab.used)[caches[k].IndexOf(slab, address) := false]
    {
      hide Cache.Valid, InOrder, SlabsSeparate, Separate, Sound;
      var c := caches[k];
      ghost var from := c.Free(address);
      slab := from;
      forall l | 0 <= l < |caches| && l != k && caches[l] != null
        ensures Kept(l, caches[l]) && caches[l].slabs == old(caches[l].slabs) && Same(caches[l], null)
      {
        var d := caches[l];
        assert old(Separate(c, c.slabs, d, d.slabs)) && old(Kept(l, d));
        SeparateFrame(c, old(c.slabs), d, old(d.slabs));
      }
    }

    /** The objects in use are those that were, but for `h`. */
    twostate predicate OthersUsed(h: Home)
      requires repr == old(repr)
      reads this`caches, this`repr, repr
    {
      forall l: nat, s: Slab, i: nat :: s in repr && Home(l, s, i) != h ==>
        (IsUsed(Home(l, s, i)) <==> old(IsUsed(Home(l, s, i))))
    }

    twostate predicate SlabsKept()
      requires repr == old(repr)
      reads this`caches, this`repr, repr
    {
      && (forall l: nat, s: Slab :: s in repr ==> (HasSlab(l, s) <==> old(HasSlab(l, s))))
      && (forall p :: old(Backed(p)) ==> Backed(p))
    }

    /** The objects in use are those that were, but for the one around the address. */
    method GiveBack(k: nat, address: nat) returns (ghost h: Home)
      requires CachesValid() && k < |SIZES| && caches[k] != null && MayFree(address)
      requires exists s :: s in caches[k].slabs && caches[k].IndexOf(s, address) != -1
      modifies repr
      ensures CachesValid() && this !in repr && caches == old(caches) && held == old(held) && repr == old(repr)
      ensures h.Home? && h.slab in repr && old(IsUsed(h)) && Covers(h, address) && !IsUsed(h)
      ensures pages == old(pages) && OthersUsed(h) && SlabsKept()
    {
      hide Kept, Separate;
      ghost var slab := GiveHere(k, address);
      ghost var index := caches[k].IndexOf(slab, address);
      caches[k].IndexInside(slab, address);
      assert Kept(k, caches[k]);
      h := Home(k, slab, index);
      forall p | old(Backed(p)) ensures Backed(p) {
        var s: Slab :| s in repr && old(HasSlab(p.cache, s)) && s.base == p.base;
        assert HasSlab(p.cache, s);
      }
    }

    /** Every block that is held may be given back, by any address in it. */
    lemma HeldMayBeFreed(a: nat, address: nat)
      requires Valid() && a in held && IsUsed(held[a]) && Covers(held[a], address)
      ensures MayFree(address)
    {
      hide Separate, Kept, Cache.Valid;
      var h := held[a];
      UnitIsSize(h.cache);
      forall k | 0 <= k < |caches| && caches[k] != null
        ensures caches[k].g.Unit() > 0 && caches[k].MayFree(address)
      {
        UnitIsSize(k);
        forall s | s in caches[k].slabs && caches[k].IndexOf(s, address) != -1
          ensures k == h.cache && s == h.slab && caches[k].IndexOf(s, address) == h.index
        {
          UsedIsFound(h, address);
          OnlyAround(h, address, k, s);
        }
      }
    }

    lemma UnitIsSize(k: nat)
      requires CachesValid() && k < |caches| && caches[k] != null
      ensures caches[k].Valid() && caches[k].g.Unit() == SIZES[k] > 0
    {
      assert Kept(k, caches[k]);
    }

    /** No other slab of any cache is around an address in an object in use. */
    lemma OnlyAround(h: Home, address: nat, k: nat, s: Slab)
      requires CachesValid() && IsUsed(h) && Covers(h, address) && caches[h.cache].g.Unit() > 0
      requires k < |caches| && caches[k] != null && caches[k].g.Unit() > 0
      requires s in caches[k].slabs && caches[k].IndexOf(s, address) != -1
      ensures k == h.cache && s == h.slab
    {
      hide Kept, Cache.Valid;
      var c, d := caches[h.cache], caches[k];
      UnitIsSize(h.cache);
      UnitIsSize(k);
      UsedIsFound(h, address);
      c.AddressPositive(h.slab);
      d.AddressPositive(s);
      if k == h.cache && s != h.slab { c.OneSlab(h.slab, s, address); }
    }

    /** kfree on the cache that was found. */
    method FreeFrom(k: nat, address: nat) returns (ghost a: nat)
      requires Valid() && MayFree(address) && k < |SIZES| && caches[k] != null
      requires exists s :: s in caches[k].slabs && caches[k].IndexOf(s, address) != -1
      modifies this`held, repr
      ensures Valid() && a in old(held) && old(IsUsed(held[a]) && Covers(held[a], address)) && held == old(held) - {a}
      ensures pages == old(pages)
    {
      hide CachesValid, MayFree, HasSlab, Backed, InUse;
      ghost var h := GiveBack(k, address);
      a := AddressOf(h);
      held := held - {a};
    }

    /**
     kfree: NULL is ignored, an address in no block that is held ends in the failed assert
     (Unknown), and otherwise exactly the block around the address is given back.
     */
    method Kfree(address: nat) returns (r: Reply, ghost a: nat)
      requires Valid() && MayFree(address)
      modifies this`held, repr
      ensures Valid() && pages == old(pages) && repr == old(repr)
      ensures r == Ignored <==> address == 0
      ensures r == Unknown ==> forall b :: b in old(held) ==> old(IsUsed(held[b]) && !Covers(held[b], address))
      ensures r != Freed ==> held == old(held)
      ensures r == Freed ==>
        a in old(held) && old(IsUsed(held[a]) && Covers(held[a], address)) && held == old(held) - {a}
    {
      hide Kept, Separate, MayFree, PagesAreSlabs;
      a := 0;
      if address == 0 { return Ignored, a; }
      var k := Route(address);
      if k == |caches| { return Unknown, a; }
      a := FreeFrom(k, address);
      return Freed, a;
    }

    /** The block at a held address is the only one around it. */
    lemma HeldIsItself(a: nat)
      requires Valid() && a in held
      ensures a > 0 && MayFree(a) && IsUsed(held[a]) && Covers(held[a], a)
      ensures forall b :: b in held && IsUsed(held[b]) && Covers(held[b], a) ==> b == a
    {
      hide Kept, Owns, Separate, PagesAreSlabs, MayFree;
      SizePositive(held[a]);
      HeldMayBeFreed(a, a);
      forall b | b in held && IsUsed(held[b]) && Covers(held[b], a) ensures b == a {
        if b != a { HeldApart(b, a); }
      }
    }

    lemma SizePositive(h: Home)
      requires CachesValid() && IsUsed(h)
      ensures h.cache < |SIZES| && SIZES[h.cache] > 0 && AddressOf(h) > 0
    {
      hide Separate, Cache.Valid;
      assert Kept(h.cache, caches[h.cache]);
      caches[h.cache].AddressPositive(h.slab);
    }

    /** No slab is around address 0. */
    lemma NullMayBeFreed()
      requires CachesValid()
      ensures MayFree(0)
    {
      hide Separate, Cache.Valid;
      forall k | 0 <= k < |caches| && caches[k] != null ensures caches[k].g.Unit() > 0 && caches[k].MayFree(0) {
        UnitIsSize(k);
        forall s | s in caches[k].slabs ensures caches[k].IndexOf(s, 0) == -1 {
          caches[k].AddressPositive(s);
        }
      }
    }

    lemma NewPagesFit(base: nat, k: nat)
      requires CachesValid() && k < |SIZES| && caches[k] != null && Unused(base, k)
      ensures Sound(caches[k].g, caches[k].layout, base)
      ensures forall s :: s in caches[k].slabs ==>
        base + caches[k].Span() <= s.base || s.base + caches[k].Span() <= base
      ensures forall l :: 0 <= l < |caches| && caches[l] != null ==>
                PagesApart(base, caches[k].Span(), caches[l], caches[l].slabs)
    {
      hide Sound, Try;
      var c := caches[k];
      assert Kept(k, c) && c.Valid();
      DefaultSound(header, k, c.round, c.layout, base);
    }

    method NewCache(k: nat) returns (c: Cache)
      requires 0 < header <= 1024 && k < |SIZES|
      ensures fresh(c) && Kept(k, c) && c.slabs == {} && c.available == 0
    {
      hide Try;
      DefaultConstructed(header, k);
      DefaultRound(header, k);
      assert ConstructedFor(PAGE, header, SIZES[k], SIZES[k], 0, false) == DefaultGeometry(header, k);
      var d := Construct(PAGE, header, SIZES[k], SIZES[k], 0, false, false);
      DefaultLayout(header, k, d.round, d.layout);
      c := d;
    }
  }
}
