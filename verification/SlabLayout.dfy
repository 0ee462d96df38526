/**
 How a memory cache cuts pages into objects (kernel/memory/heap.c): the choice of a slab
 size, where the objects of a slab begin, and why they fit.
 */
module SlabLayout {
  import opened Wrappers
  import opened Powers

  const ONSITE_THRESHOLD: nat := 512

  /** The page size, the size of the slab header, and what a cache was asked for. */
  datatype Geometry = Geometry(page: nat, header: nat, size: nat, alignment: nat, padding: nat, minimum: nat) {
    function Unit(): nat { size + padding }

    /** As MemoryCacheConstruct leaves it: objects of a size that keeps their alignment. */
    predicate Constructed() {
      && page >= 4096 && 0 < header <= 1024 && Unit() > 0
      && (alignment != 0 ==> Unit() % alignment == 0)
    }
  }

  /** The padding that MemoryCacheConstruct chooses. */
  function Padding(size: nat, alignment: nat, overrun: bool): (padding: nat)
    ensures alignment != 0 ==> (size + padding) % alignment == 0
    ensures overrun ==> padding >= 4
    ensures padding < (if overrun then 4 else 0) + (if alignment == 0 then 1 else alignment)
  {
    var guard := if overrun then 4 else 0;
    if alignment != 0 && (size + guard) % alignment != 0 then
      RoundUpIsMultiple(size + guard, alignment);
      guard + alignment - (size + guard) % alignment
    else guard
  }

  /** What MemoryCacheConstruct makes of its arguments is fit for the choice of a layout. */
  function ConstructedFor(page: nat, header: nat, size: nat, alignment: nat, minimum: nat, overrun: bool): (g: Geometry)
    requires page >= 4096 && 0 < header <= 1024 && (size > 0 || overrun)
    ensures g.Constructed()
  {
    Geometry(page, header, size, alignment, Padding(size, alignment, overrun), minimum)
  }

  /** Header and one bit for each object. */
  function StructureSize(header: nat, count: nat): (r: nat)
    ensures 8 * (r - header) >= count
    ensures r <= header + count / 8 + 1
  {
    header + count / 8 + (if count % 8 != 0 then 1 else 0)
  }

  // Products and quotients of variables are named, so that proofs need not look into them.

  function Product(k: nat, u: nat): nat { k * u }

  function Quotient(x: nat, u: nat): nat
    requires u > 0
  {
    x / u
  }

  datatype Trial = Trial(count: nat, reserved: nat, wastage: nat)

  datatype Layout = Layout(count: nat, pages: nat, onSite: bool, structureSize: nat)

  predicate Small(g: Geometry) {
    g.Unit() < ONSITE_THRESHOLD
  }

  function Reserved(g: Geometry, total: nat): nat
    requires g.Unit() > 0
  {
    if Small(g) then StructureSize(g.header, Quotient(total, g.Unit())) + g.alignment else 0
  }

  /** The space set aside never exceeds the pages, so that the subtractions do not wrap. */
  lemma ReservedFits(g: Geometry, total: nat)
    requires g.Constructed() && total >= g.page
    ensures Reserved(g, total) <= total
  {
    if Small(g) {
      var u := g.Unit();
      QuotientSmaller(total, u);
      if g.alignment > u { ModUnique(u, g.alignment, 0, u); }
    }
  }

  lemma ProductMonotone(k: nat, l: nat, u: nat)
    requires k <= l
    ensures k * u <= l * u
  {
    assert l * u == k * u + (l - k) * u;
  }

  lemma ModUnique(x: nat, a: nat, q: nat, r: nat)
    requires r < a && x == q * a + r
    ensures x % a == r && x / a == q
  {
    var q', r' := x / a, x % a;
    assert x == q' * a + r';
    if q < q' { ProductMonotone(q + 1, q', a); }
    if q' < q { ProductMonotone(q' + 1, q, a); }
  }

  lemma ProductAtLeast(q: nat, u: nat)
    requires u > 0
    ensures q * u >= q
  {
    ProductMonotone(1, u, q);
    assert q * u == u * q;
  }

  lemma QuotientSmaller(x: nat, u: nat)
    requires u > 0
    ensures var q := Quotient(x, u); q <= x && Product(q, u) <= x < Product(q, u) + u
  {
    ProductAtLeast(x / u, u);
  }

  /** One round of the search, with `2^i` pages. */
  function Try(g: Geometry, i: nat): Trial
    requires g.Constructed()
  {
    var total := Product(Pow2(i), g.page);
    PagesGrow(g.page, i);
    ReservedFits(g, total);
    var reserved := Reserved(g, total);
    QuotientSmaller(total - reserved, g.Unit());
    var count := Quotient(total - reserved, g.Unit());
    Trial(count, reserved, total - Product(count, g.Unit()) - reserved)
  }

  lemma PagesGrow(page: nat, i: nat)
    ensures Product(Pow2(i), page) >= page
  {
    ProductMonotone(1, Pow2(i), page);
  }

  predicate Accepted(g: Geometry, t: Trial) {
    t.count != 0 && t.wastage <= g.page / 16 && t.count >= g.minimum
  }

  /** What is made of an accepted trial: the slab header may move on site, and objects of 4096
      and 8192 bytes are treated by themselves. */
  function Finish(g: Geometry, i: nat, t: Trial): Layout {
    if g.size == 4096 then Layout(16, 16, false, StructureSize(g.header, 16))
    else if g.size == 8192 then Layout(8, 16, false, StructureSize(g.header, 8))
    else
      Layout(t.count, Pow2(i), Small(g) || t.wastage >= StructureSize(g.header, t.count) + g.alignment,
             if t.reserved == 0 then StructureSize(g.header, t.count) else t.reserved)
  }

  /** The layout is that of the first acceptable number of pages; with none up to `2^9` pages
      the search ends in a failed assert. */
  ghost predicate Chosen(g: Geometry, r: Option<Layout>)
    requires g.Constructed()
  {
    match r
    case None => forall j: nat :: j <= 9 ==> !Accepted(g, Try(g, j))
    case Some(layout) => exists i: nat :: ChosenAt(g, i, layout)
  }

  ghost predicate ChosenAt(g: Geometry, i: nat, layout: Layout)
    requires g.Constructed()
  {
    i <= 9 && Accepted(g, Try(g, i)) && layout == Finish(g, i, Try(g, i))
    && forall j: nat :: j < i ==> !Accepted(g, Try(g, j))
  }

  /** How many objects there are on so many pages, and what is left. */
  method Measure(g: Geometry, pages: nat, ghost i: nat) returns (objects: nat, reserved: nat, wastage: nat)
    requires g.Constructed() && pages == Pow2(i)
    ensures Trial(objects, reserved, wastage) == Try(g, i)
  {
    hide Product, Quotient, StructureSize, Pow2;
    var total, unit := Product(pages, g.page), g.Unit();
    PagesGrow(g.page, i);
    ReservedFits(g, total);
    reserved := 0;
    if unit < ONSITE_THRESHOLD {
      objects := Quotient(total, unit);
      reserved := StructureSize(g.header, objects) + g.alignment;
    }
    QuotientSmaller(total - reserved, unit);
    objects := Quotient(total - reserved, unit);
    wastage := total - Product(objects, unit) - reserved;
  }

  /** __CacheCalculateSlabSize. */
  method CalculateSlabSize(g: Geometry) returns (r: Option<Layout>)
    requires g.Constructed()
    ensures Chosen(g, r)
  {
    hide Product, Quotient, StructureSize, Try;
    var acceptedWastage := g.page / 16;
    var onSite, pages, i := g.Unit() < ONSITE_THRESHOLD, 1, 0;
    var objects: nat, reserved: nat, wastage: nat := Measure(g, pages, i);
    while objects == 0 || wastage > acceptedWastage || objects < g.minimum
      invariant i <= 9 && pages == Pow2(i)
      invariant Trial(objects, reserved, wastage) == Try(g, i)
      invariant forall j: nat :: j < i ==> !Accepted(g, Try(g, j))
      decreases 9 - i
    {
      if i == 9 { return None; }
      i := i + 1;
      pages := pages * 2;
      objects, reserved, wastage := Measure(g, pages, i);
    }
    ghost var chosen := i;
    if !onSite && wastage >= StructureSize(g.header, objects) + g.alignment {
      onSite := true;
    }
    if g.size == 4096 {
      objects, pages, onSite, reserved := 16, 16, false, 0;
    } else if g.size == 8192 {
      objects, pages, onSite, reserved := 8, 16, false, 0;
    }
    if reserved == 0 {
      reserved := StructureSize(g.header, objects);
    }
    r := Some(Layout(objects, pages, onSite, reserved));
    assert ChosenAt(g, chosen, r.value);
  }

  /** Large objects leave what a division leaves. */
  lemma LargeTrial(g: Geometry, i: nat, count: nat, wastage: nat)
    requires g.Constructed() && !Small(g) && wastage < g.Unit()
    requires Product(Pow2(i), g.page) == Product(count, g.Unit()) + wastage
    ensures Try(g, i) == Trial(count, 0, wastage)
  {
    ModUnique(Product(Pow2(i), g.page), g.Unit(), count, wastage);
  }

  /** The pages hold the objects and what is set aside, and no more than a sixteenth of a page is lost. */
  lemma LittleIsLost(g: Geometry, layout: Layout)
    requires g.Constructed() && Chosen(g, Some(layout)) && g.size != 4096 && g.size != 8192
    ensures
      var aside := if g.Unit() < 512 then layout.structureSize else 0;
      var lost := layout.pages * g.page - layout.count * g.Unit() - aside;
      0 <= 16 * lost <= g.page && layout.count > 0 && layout.count >= g.minimum
  {
    var i: nat :| ChosenAt(g, i, layout);
    var total := Product(Pow2(i), g.page);
    PagesGrow(g.page, i);
    ReservedFits(g, total);
    QuotientSmaller(total - Reserved(g, total), g.Unit());
  }

  /** Objects of 700 bytes: one to sixteen pages lose more than 256 bytes, 32 pages lose 172. */
  lemma SevenHundredBytes()
    ensures
      var g := Geometry(4096, 56, 700, 0, 0, 0);
      g.Constructed() && ChosenAt(g, 5, Layout(187, 32, true, 80))
  {
    var g := Geometry(4096, 56, 700, 0, 0, 0);
    LargeTrial(g, 0, 5, 596);
    LargeTrial(g, 1, 11, 492);
    LargeTrial(g, 2, 23, 284);
    LargeTrial(g, 3, 46, 568);
    LargeTrial(g, 4, 93, 436);
    LargeTrial(g, 5, 187, 172);
    hide Try;
    assert Pow2(5) == 32 && StructureSize(56, 187) == 80;
    forall j: nat | j < 5 ensures !Accepted(g, Try(g, j)) {
      assert j == 0 || j == 1 || j == 2 || j == 3 || j == 4;
    }
  }

  // ------------------------------------------------------------------ where objects lie

  /** The next multiple of `a`; `x` itself when there is no alignment. */
  function RoundUp(x: nat, a: nat): nat {
    if a != 0 && x % a != 0 then x + (a - x % a) else x
  }

  lemma RoundUpIsMultiple(x: nat, a: nat)
    requires a > 0
    ensures RoundUp(x, a) % a == 0 && x <= RoundUp(x, a) < x + a
    ensures x % a != 0 ==> (x + (a - x % a)) % a == 0
  {
    if x % a != 0 {
      assert x + (a - x % a) == (x / a + 1) * a;
      MultipleMod(x / a + 1, a);
    }
  }

  lemma MultipleMod(k: nat, a: nat)
    requires a > 0
    ensures k * a % a == 0
  {
    ModUnique(k * a, a, k, 0);
  }

  /** No multiple of `a` lies between a number and its rounding. */
  lemma RoundUpLeast(y: nat, a: nat, x: nat)
    requires a > 0 && x % a == 0 && y <= x
    ensures RoundUp(y, a) <= x
  {
    var q, m := y / a, x / a;
    assert y == q * a + y % a && x == m * a;
    if y % a != 0 {
      if m <= q { ProductMonotone(m, q, a); }
      ProductMonotone(q + 1, m, a);
    }
  }

  lemma SumMod(x: nat, y: nat, a: nat)
    requires a > 0 && x % a == 0 && y % a == 0
    ensures (x + y) % a == 0
    ensures x >= y ==> (x - y) % a == 0
  {
    assert x == x / a * a && y == y / a * a;
    assert x + y == (x / a + y / a) * a;
    MultipleMod(x / a + y / a, a);
    if x >= y {
      if x / a < y / a { ProductMonotone(x / a + 1, y / a, a); }
      assert x - y == (x / a - y / a) * a;
      MultipleMod(x / a - y / a, a);
    }
  }

  lemma ProductMod(k: nat, u: nat, a: nat)
    requires a > 0 && u % a == 0
    ensures Product(k, u) % a == 0
  {
    assert u == u / a * a;
    assert k * u == (k * (u / a)) * a;
    MultipleMod(k * (u / a), a);
  }

  /** Where __SlabCreate puts the first object. */
  function FirstObject(g: Geometry, l: Layout, base: nat): nat {
    if l.onSite then RoundUp(base + l.structureSize, g.alignment) else base
  }

  /** Inside the pages, behind header and bitmap, and with a bit for every object. */
  predicate Sound(g: Geometry, l: Layout, base: nat) {
    var first := FirstObject(g, l, base);
    && first + Product(l.count, g.Unit()) <= base + Product(l.pages, g.page)
    && (l.onSite ==> base + StructureSize(g.header, l.count) <= first)
    && 8 * (l.structureSize - g.header) >= l.count && l.count > 0
  }

  /** Pages are aligned for every object. */
  predicate Divides(g: Geometry) {
    g.alignment != 0 ==> g.page % g.alignment == 0
  }

  lemma BaseAligned(g: Geometry, base: nat, pages: nat)
    requires Divides(g) && g.alignment != 0 && g.page > 0 && base % g.page == 0
    ensures base % g.alignment == 0 && Product(pages, g.page) % g.alignment == 0
  {
    ProductMod(base / g.page, g.page, g.alignment);
    assert base == base / g.page * g.page;
    ProductMod(pages, g.page, g.alignment);
  }

  /** Although the structure size has the alignment in it already and is rounded up once more:
      everything is a multiple of the alignment, so that the objects still end on the pages. */
  lemma RoundedFits(base: nat, total: nat, reserved: nat, room: nat, a: nat)
    requires reserved + room <= total
    requires a != 0 ==> base % a == 0 && total % a == 0 && room % a == 0
    ensures RoundUp(base + reserved, a) + room <= base + total
  {
    if a != 0 {
      SumMod(base, total, a);
      SumMod(base + total, room, a);
      RoundUpLeast(base + reserved, a, base + total - room);
    }
  }

  lemma TrialRoom(g: Geometry, i: nat)
    requires g.Constructed()
    ensures var t := Try(g, i); t.reserved + Product(t.count, g.Unit()) + t.wastage == Product(Pow2(i), g.page)
    ensures
      var t := Try(g, i);
      if Small(g) then t.reserved > 0 && t.reserved >= StructureSize(g.header, t.count) + g.alignment
      else t.reserved == 0
  {
    hide Product, Quotient;
    var t := Try(g, i);
    var total := Product(Pow2(i), g.page);
    if Small(g) {
      PagesGrow(g.page, i);
      ReservedFits(g, total);
      QuotientMonotone(total - t.reserved, total, g.Unit());
    }
  }

  lemma QuotientMonotone(x: nat, y: nat, u: nat)
    requires u > 0 && x <= y
    ensures Quotient(x, u) <= Quotient(y, u)
  {
    QuotientSmaller(x, u);
    QuotientSmaller(y, u);
    if x / u > y / u { ProductMonotone(y / u + 1, x / u, u); }
  }

  /** The two special sizes. */
  predicate SpecialFits(g: Geometry) {
    (g.size == 4096 ==> g.Unit() <= g.page) && (g.size == 8192 ==> g.Unit() <= 2 * g.page)
  }

  /**
   For small objects whose alignment divides the page size, and for all large ones: a slab is
   laid out soundly on every page exactly when the objects of the two special sizes fit into
   the one or two pages that are counted for them.
   */
  lemma LayoutSound(g: Geometry, i: nat, l: Layout, base: nat)
    requires g.Constructed() && ChosenAt(g, i, l)
    requires (Small(g) ==> Divides(g)) && base % g.page == 0
    ensures Sound(g, l, base) <==> SpecialFits(g)
  {
    if g.size == 4096 || g.size == 8192 {
      SpecialRoom(g);
    } else {
      OrdinarySound(g, i, l, base);
    }
  }

  lemma OrdinarySound(g: Geometry, i: nat, l: Layout, base: nat)
    requires g.Constructed() && ChosenAt(g, i, l) && g.size != 4096 && g.size != 8192
    requires (Small(g) ==> Divides(g)) && base % g.page == 0
    ensures Sound(g, l, base)
  {
    hide Product, Quotient, Try, RoundUp, StructureSize;
    var t, a := Try(g, i), g.alignment;
    var total, room := Product(Pow2(i), g.page), Product(t.count, g.Unit());
    TrialRoom(g, i);
    if Small(g) {
      if a != 0 {
        BaseAligned(g, base, Pow2(i));
        ProductMod(t.count, g.Unit(), a);
      }
      RoundedFits(base, total, t.reserved, room, a);
    }
    RoundUpBounds(base + l.structureSize, a);
  }

  lemma SpecialRoom(g: Geometry)
    ensures Product(16, g.Unit()) <= Product(16, g.page) <==> g.Unit() <= g.page
    ensures Product(8, g.Unit()) <= Product(16, g.page) <==> g.Unit() <= 2 * g.page
  {}

  lemma RoundUpBounds(x: nat, a: nat)
    ensures x <= RoundUp(x, a) <= x + a
  {}

  /** Every object begins at a multiple of the alignment exactly when the slab header is on site
      or the pages happen to be aligned. */
  lemma ObjectsAligned(g: Geometry, l: Layout, base: nat, k: nat)
    requires g.Constructed() && g.alignment != 0
    ensures (FirstObject(g, l, base) + Product(k, g.Unit())) % g.alignment == 0 <==> l.onSite || base % g.alignment == 0
  {
    hide Product;
    var first, past := FirstObject(g, l, base), Product(k, g.Unit());
    if l.onSite { RoundUpIsMultiple(base + l.structureSize, g.alignment); }
    ProductMod(k, g.Unit(), g.alignment);
    if first % g.alignment == 0 { SumMod(first, past, g.alignment); }
    if (first + past) % g.alignment == 0 { SumMod(first + past, past, g.alignment); }
  }

  /** Without that division it depends on the page: small objects fit exactly when rounding up
      does not take more than was left over. */
  lemma LayoutSoundAnyAlignment(g: Geometry, i: nat, l: Layout, base: nat)
    requires g.Constructed() && ChosenAt(g, i, l) && Small(g)
    ensures Sound(g, l, base) <==>
      RoundUp(base + l.structureSize, g.alignment) - (base + l.structureSize) <= Try(g, i).wastage
  {
    hide Product, Quotient, Try, RoundUp, StructureSize;
    TrialRoom(g, i);
    RoundUpBounds(base + l.structureSize, g.alignment);
  }

  /** A cache of 24-byte objects at multiples of 24, on the third page: the last object runs
      eight bytes over the end of its slab. */
  lemma AlignmentMatters()
    ensures
      var g := Geometry(4096, 56, 24, 24, 0, 0);
      var l := Layout(166, 1, true, 102);
      g.Constructed() && ChosenAt(g, 0, l)
      && FirstObject(g, l, 3 * 4096) + 166 * 24 == 4 * 4096 + 8
      && !Sound(g, l, 3 * 4096)
  {
    var g := Geometry(4096, 56, 24, 24, 0, 0);
    assert Try(g, 0) == Trial(166, 102, 10);
  }

  /** With room for the overrun pattern, objects of 4096 and of 8192 bytes run over the end of
      their slab, on whatever pages it is. */
  lemma PaddedOverrun(base: nat)
    ensures
      var g, l := ConstructedFor(4096, 56, 4096, 4096, 0, true), Layout(16, 16, false, 58);
      ChosenAt(g, 1, l) && !Sound(g, l, base)
    ensures
      var g, l := ConstructedFor(4096, 56, 8192, 8192, 0, true), Layout(8, 16, false, 57);
      ChosenAt(g, 2, l) && !Sound(g, l, base)
  {
    hide Try;
    var g := ConstructedFor(4096, 56, 4096, 4096, 0, true);
    assert g == Geometry(4096, 56, 4096, 4096, 4096, 0);
    LargeTrial(g, 0, 0, 4096);
    LargeTrial(g, 1, 1, 0);
    var f := ConstructedFor(4096, 56, 8192, 8192, 0, true);
    assert f == Geometry(4096, 56, 8192, 8192, 8192, 0);
    LargeTrial(f, 0, 0, 4096);
    LargeTrial(f, 1, 0, 8192);
    LargeTrial(f, 2, 1, 0);
  }

  /** Objects of 8192 bytes are wanted at multiples of 8192; on the first page they are not. */
  lemma LargeNotAligned()
    ensures
      var g, l := ConstructedFor(4096, 56, 8192, 8192, 0, false), Layout(8, 16, false, 57);
      ChosenAt(g, 1, l) && Sound(g, l, 4096) && FirstObject(g, l, 4096) % g.alignment == 4096
  {
    hide Try;
    var g := ConstructedFor(4096, 56, 8192, 8192, 0, false);
    assert g == Geometry(4096, 56, 8192, 8192, 0, 0);
    LargeTrial(g, 0, 0, 4096);
    LargeTrial(g, 1, 1, 0);
  }
}
