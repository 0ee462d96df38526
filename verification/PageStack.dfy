/** The stack of physical pages (kernel/utils/memory_stack.c), which stores runs of pages. */
module PageStack {
  import opened Counting

  datatype Item = Item(base: nat, count: nat)

  /** `n` pages from `base` on. */
  function Pages(base: nat, n: nat, size: nat): (r: seq<nat>)
    ensures |r| == n
  {
    seq(n, i => base + i * size)
  }

  /** All the pages, the top one last. */
  function Flat(s: seq<Item>, size: nat): seq<nat> {
    if s == [] then [] else Flat(s[..|s| - 1], size) + Pages(s[|s| - 1].base, s[|s| - 1].count, size)
  }

  lemma FlatAppend(s: seq<Item>, e: Item, size: nat)
    ensures Flat(s + [e], size) == Flat(s, size) + Pages(e.base, e.count, size)
  {
    assert (s + [e])[..|s|] == s;
  }

  lemma PagesSplit(base: nat, n: nat, k: nat, size: nat)
    requires k <= n
    ensures Pages(base, n, size) == Pages(base, k, size) + Pages(base + k * size, n - k, size)
  {
    var a, b := Pages(base, n, size), Pages(base, k, size) + Pages(base + k * size, n - k, size);
    forall i | 0 <= i < n ensures a[i] == b[i] {
      if i >= k { assert i * size == k * size + (i - k) * size; }
    }
  }

  // ------------------------------------------------------------------------- push

  /** The pages continue the last run. */
  predicate Continues(s: seq<Item>, address: nat, size: nat) {
    s != [] && s[|s| - 1].base + s[|s| - 1].count * size == address
  }

  function Pushed(s: seq<Item>, address: nat, n: nat, size: nat): seq<Item> {
    if Continues(s, address, size) then s[..|s| - 1] + [s[|s| - 1].(count := s[|s| - 1].count + n)]
    else s + [Item(address, n)]
  }

  /** Push appends the pages. */
  lemma PushAppends(s: seq<Item>, address: nat, n: nat, size: nat)
    ensures Flat(Pushed(s, address, n, size), size) == Flat(s, size) + Pages(address, n, size)
  {
    hide Pages;
    if Continues(s, address, size) {
      var last := s[|s| - 1];
      assert s == s[..|s| - 1] + [last];
      FlatAppend(s[..|s| - 1], last.(count := last.count + n), size);
      PagesSplit(last.base, last.count + n, last.count, size);
    } else {
      FlatAppend(s, Item(address, n), size);
    }
  }

  // ------------------------------------------------------------------------- pop

  datatype Popped = Popped(items: seq<Item>, blocks: seq<nat>, left: nat)

  function Min(a: nat, b: nat): nat { if a < b then a else b }

  /** The pages that the top run gives, in ascending order. */
  function Top(s: seq<Item>, n: nat, size: nat): seq<nat>
    requires s != [] && n <= s[|s| - 1].count
  {
    Pages(s[|s| - 1].base + (s[|s| - 1].count - n) * size, n, size)
  }

  /** Run after run, from the top, until there are enough pages. */
  function Pop(s: seq<Item>, n: nat, size: nat): Popped
    decreases s
  {
    if n == 0 || s == [] then Popped(s, [], n)
    else
      var last, rest := s[|s| - 1], s[..|s| - 1];
      var take := Min(last.count, n);
      if take == last.count then
        var r := Pop(rest, n - take, size);
        r.(blocks := Top(s, take, size) + r.blocks)
      else Popped(rest + [last.(count := last.count - take)], Top(s, take, size), 0)
  }

  /** `r` is the outcome of taking the last `n` pages of `all`, or all there are: page `x` is
      given as often as it is among them, and those below stay. */
  ghost predicate TakesLast(all: seq<nat>, n: nat, r: Popped, size: nat, x: nat) {
    var taken := Min(n, |all|);
    && r.left == n - taken && |r.blocks| == taken && (r.left > 0 ==> r.items == [])
    && Flat(r.items, size) == all[..|all| - taken]
    && Occurs(r.blocks, x) == Occurs(all[|all| - taken..], x)
  }

  /** No page is lost and none is given twice. */
  lemma {:induction false} PopTakesLast(s: seq<Item>, n: nat, size: nat, x: nat)
    ensures TakesLast(Flat(s, size), n, Pop(s, n, size), size, x)
    decreases s
  {
    hide Pages, TakesLast, Top;
    if n == 0 || s == [] {
      TakesNothing(s, n, size, x);
    } else {
      var last, rest := s[|s| - 1], s[..|s| - 1];
      if last.count <= n {
        PopTakesLast(rest, n - last.count, size, x);
        PopWhole(s, n, size);
        TakesWhole(Flat(rest, size), Pages(last.base, last.count, size), n, Pop(rest, n - last.count, size), size, x);
      } else {
        TakesPart(s, n, size, x);
      }
    }
  }

  lemma TakesNothing(s: seq<Item>, n: nat, size: nat, x: nat)
    requires n == 0 || s == []
    ensures TakesLast(Flat(s, size), n, Popped(s, [], n), size, x)
  {
    var all := Flat(s, size);
    assert all[..|all|] == all && all[|all|..] == [];
  }

  lemma TakesPart(s: seq<Item>, n: nat, size: nat, x: nat)
    requires s != [] && 0 < n < s[|s| - 1].count
    ensures TakesLast(Flat(s, size), n, Pop(s, n, size), size, x)
  {
    hide Pages;
    var last, rest, all := s[|s| - 1], s[..|s| - 1], Flat(s, size);
    FlatAppend(rest, last.(count := last.count - n), size);
    PagesSplit(last.base, last.count, last.count - n, size);
    assert all[..|all| - n] == Flat(rest, size) + Pages(last.base, last.count - n, size);
    assert all[|all| - n..] == Top(s, n, size);
  }

  /** One more run on top, which is taken whole. */
  lemma TakesWhole(below: seq<nat>, run: seq<nat>, n: nat, r: Popped, size: nat, x: nat)
    requires |run| <= n && TakesLast(below, n - |run|, r, size, x)
    ensures TakesLast(below + run, n, r.(blocks := run + r.blocks), size, x)
  {
    hide Flat, Occurs;
    WholeRun(below, run, n);
    var further := Min(n - |run|, |below|);
    OccursConcat(below[|below| - further..], run, x);
    OccursConcat(run, r.blocks, x);
  }

  lemma PopWhole(s: seq<Item>, n: nat, size: nat)
    requires s != [] && n > 0 && s[|s| - 1].count <= n
    ensures
      var last := s[|s| - 1];
      var r := Pop(s[..|s| - 1], n - last.count, size);
      Pop(s, n, size) == r.(blocks := Pages(last.base, last.count, size) + r.blocks)
  {
    hide Pages, Top;
    TopWhole(s, size);
  }

  lemma TopWhole(s: seq<Item>, size: nat)
    requires s != []
    ensures Top(s, s[|s| - 1].count, size) == Pages(s[|s| - 1].base, s[|s| - 1].count, size)
  {
    assert 0 * size == 0;
  }

  /** The last run is taken whole: what is left of the pages below, and what is taken. */
  lemma WholeRun(below: seq<nat>, run: seq<nat>, n: nat)
    requires |run| <= n
    ensures
      var all := below + run;
      var taken, further := Min(n, |all|), Min(n - |run|, |below|);
      && taken == |run| + further
      && all[..|all| - taken] == below[..|below| - further]
      && all[|all| - taken..] == below[|below| - further..] + run
  {}

  /** The last run is empty and begins where the pages are pushed. */
  predicate EmptyAt(s: seq<Item>, address: nat) {
    s != [] && s[|s| - 1] == Item(address, 0)
  }

  /**
   Popping what has just been pushed gives the pages in ascending order, and restores the
   runs exactly when the last one was not an empty run at that address.
   */
  lemma PopAfterPush(s: seq<Item>, address: nat, n: nat, size: nat)
    requires n > 0 && size > 0
    ensures
      var r := Pop(Pushed(s, address, n, size), n, size);
      && r.blocks == Pages(address, n, size) && r.left == 0 && Flat(r.items, size) == Flat(s, size)
      && (r.items == s <==> !EmptyAt(s, address))
  {
    hide Pages, Flat;
    var t := Pushed(s, address, n, size);
    var last, rest := t[|t| - 1], t[..|t| - 1];
    assert Pop(rest, 0, size) == Popped(rest, [], 0);
    assert Top(t, n, size) + [] == Top(t, n, size);
    PushAppends(s, address, n, size);
    PopTakesLast(t, n, size, 0);
    assert Flat(t, size)[..|Flat(t, size)| - n] == Flat(s, size);
    if Continues(s, address, size) {
      var before := s[|s| - 1];
      assert rest == s[..|s| - 1] && s == rest + [before] && last == before.(count := before.count + n);
      assert before.base + (before.count + n - n) * size == address;
    } else {
      assert rest == s && address + 0 * size == address;
    }
  }

  /** With an empty run on top, a push of one page at its base and a pop leave the stack without it. */
  lemma EmptyRunLost(address: nat, size: nat)
    requires size > 0
    ensures Pop(Pushed([Item(address, 0)], address, 1, size), 1, size).items == []
  {
    PopAfterPush([Item(address, 0)], address, 1, size);
    assert Pushed([Item(address, 0)], address, 1, size) == [Item(address, 1)];
  }

  // ------------------------------------------------------------------------- in place

  datatype Status = Ok | OutOfMemory | Incomplete

  class MemoryStack {
    const blockSize: nat
    var items: array<Item>
    var index: nat

    ghost predicate Valid()
      reads this
    {
      index <= items.Length && 0 < items.Length && blockSize > 0
    }

    ghost function View(): seq<Item>
      requires Valid()
      reads this, items
    {
      items[..index]
    }

    /** MemoryStackConstruct. */
    constructor (blockSize: nat, capacity: nat)
      requires blockSize > 0 && capacity > 0
      ensures Valid() && View() == [] && this.blockSize == blockSize && fresh(items)
    {
      this.blockSize := blockSize;
      items := new Item[capacity](_ => Item(0, 0));
      index := 0;
    }

    /** __ExtendStack: twice the room, with the items copied. */
    method Extend()
      requires Valid()
      modifies this`items
      ensures Valid() && fresh(items) && items.Length == 2 * old(items.Length) && View() == old(View())
    {
      var larger := new Item[2 * items.Length](
        i requires 0 <= i reads this, items => if i < items.Length then items[i] else Item(0, 0));
      items := larger;
    }

    /** MemoryStackPush. */
    method Push(address: nat, count: nat)
      requires Valid()
      modifies this, items
      ensures Valid() && View() == Pushed(old(View()), address, count, blockSize)
      ensures items == old(items) || fresh(items)
    {
      ghost var was := View();
      if index != 0 {
        var last := items[index - 1];
        assert was[|was| - 1] == last;
        if last.base + last.count * blockSize == address {
          items[index - 1] := last.(count := last.count + count);
          assert View() == was[..|was| - 1] + [last.(count := last.count + count)];
          return;
        }
      }
      if index == items.Length { Extend(); }
      items[index] := Item(address, count);
      index := index + 1;
      assert View() == was + [Item(address, count)];
    }

    /** The inner loop of MemoryStackPop. */
    method Emit(blocks: array<nat>, j: nat, base: nat, n: nat)
      requires j + n <= blocks.Length
      modifies blocks
      ensures blocks[..j + n] == old(blocks[..j]) + Pages(base, n, blockSize)
    {
      var i, address := 0, base;
      ghost var was := blocks[..j];
      while i < n
        invariant i <= n && address == base + i * blockSize
        invariant blocks[..j + i] == was + Pages(base, i, blockSize)
      {
        blocks[j + i] := address;
        address := address + blockSize;
        assert Pages(base, i + 1, blockSize) == Pages(base, i, blockSize) + [base + i * blockSize];
        assert blocks[..j + (i + 1)] == blocks[..j + i] + [base + i * blockSize];
        i := i + 1;
      }
    }

    /** One run, or as much of it as is needed, is taken off the top. */
    method TakeRun(blocks: array<nat>, j: nat, left: nat) returns (take: nat)
      requires Valid() && index > 0 && 0 < left && j + left <= blocks.Length
      modifies this`index, items, blocks
      ensures Valid()
      ensures
        var s := old(View());
        var last, rest := s[|s| - 1], s[..|s| - 1];
        && take == Min(last.count, left) && blocks[..j + take] == old(blocks[..j]) + Top(s, take, blockSize)
        && View() == (if take == last.count then rest else rest + [last.(count := last.count - take)])
        && index == (if take == last.count then old(index) - 1 else old(index))
    {
      hide Pages;
      ghost var now := View();
      var last := items[index - 1];
      assert last == now[|now| - 1];
      take := Min(last.count, left);
      Emit(blocks, j, last.base + (last.count - take) * blockSize, take);
      if take == last.count {
        index := index - 1;
        assert View() == now[..|now| - 1];
      } else {
        items[index - 1] := last.(count := last.count - take);
        assert View() == now[..|now| - 1] + [last.(count := last.count - take)];
      }
    }

    /** MemoryStackPop. */
    method PopBlocks(n: nat, blocks: array<nat>) returns (status: Status, count: nat)
      requires Valid() && 0 < n <= blocks.Length
      modifies this`index, items, blocks
      ensures Valid()
      ensures var r := Pop(old(View()), n, blockSize);
        && View() == r.items
        && status == (if old(index) == 0 then OutOfMemory else if r.left > 0 then Incomplete else Ok)
        && (status == OutOfMemory ==> count == n)
        && (status != OutOfMemory ==> count == |r.blocks| <= n && blocks[..count] == r.blocks)
    {
      hide Pages, Top, Pop, Remains;
      ghost var r := Pop(View(), n, blockSize);
      var left: nat, j: nat := n, 0;
      RemainsFirst(View(), n, blockSize);
      if index == 0 {
        RemainsEnd(View(), n, blockSize, [], r);
        return OutOfMemory, n;
      }
      assert blocks[..0] == [];
      while left != 0
        invariant Valid() && j + left == n && (left > 0 ==> index > 0)
        invariant Remains(View(), left, blockSize, blocks[..j], r)
        decreases index, left
      {
        ghost var now, done := View(), blocks[..j];
        var take := TakeRun(blocks, j, left);
        RemainsStep(now, left, blockSize, take, View(), done, r);
        j := j + take;
        left := left - take;
        if index == 0 && left != 0 {
          RemainsEnd(View(), left, blockSize, blocks[..j], r);
          return Incomplete, j;
        }
      }
      RemainsEnd(View(), 0, blockSize, blocks[..j], r);
      return Ok, n;
    }
  }

  /** After `done`, popping `n` more pages off `s` makes up the whole pop `r`. */
  ghost predicate Remains(s: seq<Item>, n: nat, size: nat, done: seq<nat>, r: Popped) {
    var now := Pop(s, n, size);
    now.items == r.items && now.left == r.left && r.blocks == done + now.blocks
  }

  lemma RemainsFirst(s: seq<Item>, n: nat, size: nat)
    ensures Remains(s, n, size, [], Pop(s, n, size))
  {
    hide Pop;
    assert [] + Pop(s, n, size).blocks == Pop(s, n, size).blocks;
  }

  lemma RemainsStep(s: seq<Item>, n: nat, size: nat, take: nat, s': seq<Item>, done: seq<nat>, r: Popped)
    requires s != [] && n > 0 && take == Min(s[|s| - 1].count, n) && Remains(s, n, size, done, r)
    requires
      var last, rest := s[|s| - 1], s[..|s| - 1];
      s' == if take == last.count then rest else rest + [last.(count := last.count - take)]
    ensures Remains(s', n - take, size, done + Top(s, take, size), r)
  {
    hide Pop, Top;
    PopStep(s, n, size, take, s');
    var top, next := Top(s, take, size), Pop(s', n - take, size).blocks;
    assert done + (top + next) == done + top + next;
  }

  lemma RemainsEnd(s: seq<Item>, n: nat, size: nat, done: seq<nat>, r: Popped)
    requires Remains(s, n, size, done, r) && (n == 0 || s == [])
    ensures r == Popped(s, done, n)
  {
    assert done + [] == done;
  }

  /** One round of Pop. */
  lemma PopStep(s: seq<Item>, n: nat, size: nat, take: nat, s': seq<Item>)
    requires s != [] && n > 0 && take == Min(s[|s| - 1].count, n)
    requires
      var last, rest := s[|s| - 1], s[..|s| - 1];
      s' == if take == last.count then rest else rest + [last.(count := last.count - take)]
    ensures
      var r := Pop(s', n - take, size);
      Pop(s, n, size) == r.(blocks := Top(s, take, size) + r.blocks)
  {
    hide Pages, Top;
    assert Top(s, take, size) + [] == Top(s, take, size);
  }
}
