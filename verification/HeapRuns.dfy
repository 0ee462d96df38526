/** Whole runs of kmalloc and kfree (kernel/memory/heap.c). */
module HeapRuns {
  import opened Heap

  /** A request, with the pages that the heap may take for it (0 for none), or the end of the
      block that an earlier request was given. */
  datatype Op = Get(size: nat, base: nat) | Put(which: nat)

  /** The requests whose blocks have not been given back. */
  function Open(ops: seq<Op>): (r: set<nat>)
    ensures forall i :: i in r ==> i < |ops| && ops[i].Get?
  {
    if ops == [] then {}
    else
      var n, r := |ops| - 1, Open(ops[..|ops| - 1]);
      match ops[n]
      case Get(_, _) => r + {n}
      case Put(i) => r - {i}
  }

  /** Nothing is given back that was not got, or twice. */
  ghost predicate Sensible(ops: seq<Op>) {
    forall i :: 0 <= i < |ops| && ops[i].Put? ==> ops[i].which in Open(ops[..i])
  }

  /** The pages that the heap may take for a request. */
  ghost predicate Offers(op: Op, p: Run) {
    op.Get? && op.base != 0 && p.base == op.base && Selects(op.size, p.cache)
  }

  /** The pages on offer are pages, and no two of them overlap or are in use. */
  ghost predicate Supplied(ops: seq<Op>, pages: set<Run>) {
    && (forall i, p :: 0 <= i < |ops| && Offers(ops[i], p) ==>
          p.base % PAGE == 0 && forall q :: q in pages ==> RunsApart(p, q))
    && (forall i, j, p, q :: 0 <= i < j < |ops| && Offers(ops[i], p) && Offers(ops[j], q) ==> RunsApart(p, q))
  }

  /** The heap holds what it held at the start and one block for every open request that was
      answered, of the smallest default size that is enough. */
  ghost predicate Agrees(held: map<nat, Home>, start: map<nat, Home>, ops: seq<Op>, replies: seq<nat>)
    requires |replies| == |ops|
  {
    && (forall a :: a in start ==> a in held && held[a] == start[a])
    && (forall i :: i in Open(ops) && replies[i] != 0 ==> Answers(held, start, ops[i].size, replies[i]))
    && (forall i, j :: i in Open(ops) && j in Open(ops) && i != j && replies[i] != 0 ==> replies[i] != replies[j])
    && (forall a :: a in held && a !in start ==> exists i :: i in Open(ops) && replies[i] == a)
  }

  ghost predicate Answers(held: map<nat, Home>, start: map<nat, Home>, size: nat, a: nat) {
    a in held && a !in start && held[a].Home? && Selects(size, held[a].cache)
  }

  lemma AgreesNone(held: map<nat, Home>, start: map<nat, Home>, ops: seq<Op>, replies: seq<nat>, op: Op)
    requires |replies| == |ops| && 0 !in held && Agrees(held, start, ops, replies) && op.Get?
    ensures Agrees(held, start, ops + [op], replies + [0])
  {
    hide Answers;
    OpenMore(ops, op);
    forall a | a in held && a !in start ensures exists i :: i in Open(ops + [op]) && (replies + [0])[i] == a {
      var i :| i in Open(ops) && replies[i] == a;
      assert (replies + [0])[i] == a;
    }
  }

  lemma AgreesGet(held: map<nat, Home>, start: map<nat, Home>, ops: seq<Op>, replies: seq<nat>, op: Op, r: nat, h: Home)
    requires |replies| == |ops| && Agrees(held, start, ops, replies) && op.Get?
    requires r != 0 && r !in held && h.Home? && Selects(op.size, h.cache)
    ensures Agrees(held[r := h], start, ops + [op], replies + [r])
  {
    hide Selects;
    OpenMore(ops, op);
    forall a | a in held[r := h] && a !in start
      ensures exists i :: i in Open(ops + [op]) && (replies + [r])[i] == a
    {
      if a == r {
        assert (replies + [r])[|ops|] == a;
      } else {
        var i :| i in Open(ops) && replies[i] == a;
        assert (replies + [r])[i] == a;
      }
    }
  }

  lemma AgreesPut(held: map<nat, Home>, start: map<nat, Home>, ops: seq<Op>, replies: seq<nat>, n: nat)
    requires |replies| == |ops| && 0 !in held && Agrees(held, start, ops, replies) && n in Open(ops)
    ensures Agrees(held - {replies[n]}, start, ops + [Put(n)], replies + [0])
  {
    hide Answers, Open;
    OpenMore(ops, Put(n));
    var gone, rest := replies[n], held - {replies[n]};
    GoneIsNew(held, start, ops, replies, n);
    forall i | i in Open(ops) && i != n && replies[i] != 0 ensures Answers(rest, start, ops[i].size, replies[i]) {
      AnswerStays(held, start, ops[i].size, replies[i], gone);
    }
    forall a | a in rest && a !in start ensures exists i :: i in Open(ops + [Put(n)]) && (replies + [0])[i] == a {
      var i :| i in Open(ops) && replies[i] == a;
      assert (replies + [0])[i] == a;
    }
  }

  lemma GoneIsNew(held: map<nat, Home>, start: map<nat, Home>, ops: seq<Op>, replies: seq<nat>, n: nat)
    requires |replies| == |ops| && 0 !in held && Agrees(held, start, ops, replies) && n in Open(ops)
    ensures replies[n] !in start
  {}

  lemma AnswerStays(held: map<nat, Home>, start: map<nat, Home>, size: nat, a: nat, gone: nat)
    requires Answers(held, start, size, a) && a != gone
    ensures Answers(held - {gone}, start, size, a)
  {
    hide Selects;
  }

  lemma OpenMore(ops: seq<Op>, op: Op)
    ensures Open(ops + [op]) == if op.Get? then Open(ops) + {|ops|} else Open(ops) - {op.which}
  {
    assert (ops + [op])[..|ops|] == ops;
  }

  lemma NoNull(heap: DefaultCaches)
    requires heap.Valid()
    ensures 0 !in heap.held
  {
    hide DefaultCaches.Valid, DefaultCaches.MayFree;
    if 0 in heap.held { heap.HeldIsItself(0); }
  }

  lemma MayFreeNull(heap: DefaultCaches)
    requires heap.Valid()
    ensures heap.MayFree(0)
  {
    heap.NullMayBeFreed();
  }

  /** A block is given back by its own address; NULL is nothing to give back. */
  method PutOne(heap: DefaultCaches, a: nat)
    requires heap.Valid() && (a == 0 || a in heap.held)
    modifies heap`held, heap.repr
    ensures heap.Valid() && heap.held == old(heap.held) - {a} && heap.pages == old(heap.pages)
    ensures heap.repr == old(heap.repr)
  {
    hide DefaultCaches.Valid, DefaultCaches.CachesValid, DefaultCaches.MayFree, DefaultCaches.IsUsed;
    hide DefaultCaches.Covers;
    NoNull(heap);
    if a == 0 { MayFreeNull(heap); } else { heap.HeldIsItself(a); }
    var r, b := heap.Kfree(a);
    assert a == 0 ==> old(heap.held) - {a} == old(heap.held);
  }

  /** The pages in use are those of the start, and some of those that were on offer. */
  ghost predicate FromOffers(pages: set<Run>, start: set<Run>, ops: seq<Op>) {
    forall p :: p in pages && p !in start ==> exists i :: 0 <= i < |ops| && Offers(ops[i], p)
  }

  /** The pages of the next request are clear. */
  lemma NextIsClear(pages: set<Run>, start: set<Run>, ops: seq<Op>, t: nat, p: Run)
    requires Supplied(ops, start) && t < |ops| && FromOffers(pages, start, ops[..t]) && Offers(ops[t], p)
    ensures p.base > 0 && p.base % PAGE == 0 && forall q :: q in pages ==> RunsApart(p, q)
  {
    hide RunsApart, Selects;
    forall q | q in pages ensures RunsApart(p, q) {
      if q !in start {
        var i :| 0 <= i < t && Offers(ops[..t][i], q);
        assert Offers(ops[i], q);
        ApartBothWays(q, p);
      }
    }
  }

  lemma ApartBothWays(p: Run, q: Run)
    requires RunsApart(p, q)
    ensures RunsApart(q, p)
  {}

  /**
   Every run of requests and frees, with pages for the heap to take that do not overlap: the
   heap stays in order, it holds exactly the blocks that were handed out and not given back,
   each of the smallest default size that is enough, and no two of them share a byte.
   */
  method Execute(heap: DefaultCaches, ops: seq<Op>) returns (replies: seq<nat>)
    requires heap.Valid() && Sensible(ops) && Supplied(ops, heap.pages)
    modifies heap, heap.repr
    ensures heap.Valid() && fresh(heap.repr - old(heap.repr)) && |replies| == |ops|
    ensures Agrees(heap.held, old(heap.held), ops, replies)
    ensures FromOffers(heap.pages, old(heap.pages), ops)
    ensures forall a, b :: a in heap.held && b in heap.held && a != b ==> Disjoint(heap.held, a, b)
  {
    hide DefaultCaches.Valid, DefaultCaches.NothingFree, Agrees, FromOffers, Supplied;
    ghost var start, pages := heap.held, heap.pages;
    replies := [];
    Nothing(start, pages);
    while |replies| < |ops|
      invariant |replies| <= |ops| && heap.Valid() && fresh(heap.repr - old(heap.repr))
      invariant Agrees(heap.held, start, ops[..|replies|], replies)
      invariant FromOffers(heap.pages, pages, ops[..|replies|])
    {
      ghost var t := |replies|;
      assert ops[..t + 1] == ops[..t] + [ops[t]];
      var r := Do(heap, ops, replies, start, pages);
      replies := replies + [r];
    }
    assert ops[..|ops|] == ops;
    forall a, b | a in heap.held && b in heap.held && a != b ensures Disjoint(heap.held, a, b) {
      HeldDisjoint(heap, a, b);
    }
  }

  /** The next operation of a run. */
  method Do(heap: DefaultCaches, ops: seq<Op>, replies: seq<nat>, ghost start: map<nat, Home>, ghost pages: set<Run>)
    returns (r: nat)
    requires heap.Valid() && Sensible(ops) && Supplied(ops, pages) && |replies| < |ops|
    requires Agrees(heap.held, start, ops[..|replies|], replies)
    requires FromOffers(heap.pages, pages, ops[..|replies|])
    modifies heap, heap.repr
    ensures heap.Valid() && fresh(heap.repr - old(heap.repr))
    ensures Agrees(heap.held, start, ops[..|replies|] + [ops[|replies|]], replies + [r])
    ensures FromOffers(heap.pages, pages, ops[..|replies|] + [ops[|replies|]])
  {
    hide DefaultCaches.Valid, DefaultCaches.NothingFree, Agrees, FromOffers, Supplied;
    var t := |replies|;
    ghost var was, held := heap.pages, heap.held;
    NoNull(heap);
    match ops[t]
    case Get(size, base) =>
      if base != 0 {
        forall k: nat | Selects(size, k) ensures heap.Clear(base, k) {
          NextIsClear(heap.pages, pages, ops, t, Run(base, k));
        }
      }
      r := heap.Kmalloc(size, base);
      if r == 0 {
        AgreesNone(held, start, ops[..t], replies, ops[t]);
      } else {
        AgreesGet(held, start, ops[..t], replies, ops[t], r, heap.held[r]);
        assert Selects(size, heap.held[r].cache);
      }
      OffersMore(was, heap.pages, pages, ops[..t], ops[t]);
    case Put(n) =>
      OpenIndex(ops, t);
      OpenHeld(heap.held, start, ops[..t], replies, n);
      PutOne(heap, replies[n]);
      r := 0;
      AgreesPut(held, start, ops[..t], replies, n);
      OffersMore(was, heap.pages, pages, ops[..t], ops[t]);
  }

  lemma Nothing(start: map<nat, Home>, pages: set<Run>)
    ensures Agrees(start, start, [], []) && FromOffers(pages, pages, [])
  {}

  lemma OpenIndex(ops: seq<Op>, t: nat)
    requires Sensible(ops) && t < |ops| && ops[t].Put?
    ensures ops[t].which in Open(ops[..t])
  {}

  lemma OpenHeld(held: map<nat, Home>, start: map<nat, Home>, ops: seq<Op>, replies: seq<nat>, n: nat)
    requires |replies| == |ops| && Agrees(held, start, ops, replies) && n in Open(ops)
    ensures n < |replies| && (replies[n] == 0 || replies[n] in held)
  {}

  /** At most the pages on offer were taken. */
  lemma OffersMore(was: set<Run>, now: set<Run>, start: set<Run>, ops: seq<Op>, op: Op)
    requires FromOffers(was, start, ops) && forall p :: p in now ==> p in was || Offers(op, p)
    ensures FromOffers(now, start, ops + [op])
  {
    hide Offers;
    forall p | p in now && p !in start ensures exists i :: 0 <= i < |ops + [op]| && Offers((ops + [op])[i], p) {
      if p in was {
        var i :| 0 <= i < |ops| && Offers(ops[i], p);
        assert (ops + [op])[i] == ops[i];
      } else {
        assert (ops + [op])[|ops|] == op;
      }
    }
  }

  /** Two blocks share no byte. */
  ghost predicate Disjoint(held: map<nat, Home>, a: nat, b: nat)
    requires a in held && b in held
  {
    && held[a].Home? && held[b].Home? && held[a].cache < |SIZES| && held[b].cache < |SIZES|
    && (a + SIZES[held[a].cache] <= b || b + SIZES[held[b].cache] <= a)
  }

  lemma HeldDisjoint(heap: DefaultCaches, a: nat, b: nat)
    requires heap.Valid() && a in heap.held && b in heap.held && a != b
    ensures Disjoint(heap.held, a, b)
  {
    heap.HeldApart(a, b);
  }
}
