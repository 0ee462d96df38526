/** Whole runs of allocations and releases, and the two pools side by side. */
module BuddyRuns {
  import opened BuddyTree
  import opened BuddyArray
  import StaticPool
  import DynamicPool

  datatype Op = Get(request: nat) | Put(address: nat)

  /** One operation and its reply: an address, or 0, for Get; 0 or -1 for Put. */
  function Step(p: Shape, t: Tree, op: Op): (Tree, int) {
    match op
    case Get(request) =>
      (match Allocate(t, p.chunk, p.height, p.start, request)
       case NoBlock => (t, 0)
       case Placed(t', a) => (t', a))
    case Put(address) =>
      var (t', ok) := Release(t, p.chunk, p.height, p.start, address);
      var reply: int := if ok then 0 else -1;
      (t', reply)
  }

  function Run(p: Shape, t: Tree, ops: seq<Op>): (Tree, seq<int>) {
    if ops == [] then (t, [])
    else
      var (t1, replies) := Run(p, t, ops[..|ops| - 1]);
      var (t2, reply) := Step(p, t1, ops[|ops| - 1]);
      (t2, replies + [reply])
  }

  /** What a client holds after an operation, judged by the replies alone. */
  ghost function Client(p: Shape, held: set<Block>, op: Op, reply: int): set<Block> {
    match op
    case Get(request) =>
      if reply <= 0 then held
      else held + {Block(reply, Size(p.chunk, FitHeight(p.chunk, p.height, request)))}
    case Put(address) =>
      if reply != 0 then held else set b | b in held && !Contains(b, address)
  }

  ghost function Held(p: Shape, ops: seq<Op>, replies: seq<int>): set<Block>
    requires |ops| == |replies|
    decreases |ops|
  {
    if ops == [] then {}
    else
      var n := |ops| - 1;
      Client(p, Held(p, ops[..n], replies[..n]), ops[n], replies[n])
  }

  ghost predicate Usable(p: Shape) {
    p.start > 0 && p.chunk > 0
  }

  /** Blocks pairwise disjoint, inside the pool and on their own grid. */
  ghost predicate Separated(p: Shape, blocks: set<Block>) {
    && (forall a, b :: a in blocks && b in blocks && a != b ==> Disjoint(a, b))
    && (forall b :: b in blocks ==> WellPlaced(b, p.chunk, p.height, p.start))
  }

  lemma StepAgrees(p: Shape, t: Tree, op: Op)
    requires Usable(p) && Valid(t, p.height)
    ensures
      var (t', reply) := Step(p, t, op);
      && Valid(t', p.height)
      && Live(t', p.chunk, p.height, p.start) == Client(p, Live(t, p.chunk, p.height, p.start), op, reply)
  {
    var live := Live(t, p.chunk, p.height, p.start);
    match op
    case Get(request) =>
      AllocateAddsBlock(t, p.chunk, p.height, p.start, request);
      AllocateTakesLowestOpen(t, p.chunk, p.height, p.start, request);
      var o := Allocate(t, p.chunk, p.height, p.start, request);
      if o.Placed? {
        OpenInside(t, p.chunk, p.height, p.start, FitHeight(p.chunk, p.height, request), o.address);
      }
    case Put(address) =>
      ReleaseKeepsValid(t, p.chunk, p.height, p.start, address);
      ReleaseSucceeds(t, p.chunk, p.height, p.start, address);
      if b :| b in live && Contains(b, address) {
        ReleaseRemovesBlock(t, p.chunk, p.height, p.start, address, b);
        LiveDisjoint(t, p.chunk, p.height, p.start);
        OthersElsewhere(live, b, address);
      }
  }

  lemma OthersElsewhere(blocks: set<Block>, b: Block, address: nat)
    requires b in blocks && Contains(b, address)
    requires forall x, y :: x in blocks && y in blocks && x != y ==> Disjoint(x, y)
    ensures blocks - {b} == set x | x in blocks && !Contains(x, address)
  {
    forall x | x in blocks && x != b ensures !Contains(x, address) {
      assert Disjoint(x, b);
    }
  }

  /** After every run from a fresh pool, the tree is valid and holds exactly the
      blocks the replies have handed out and not taken back; those are separated. */
  lemma {:induction false} RunSafe(p: Shape, ops: seq<Op>)
    requires Usable(p)
    ensures
      var (t, replies) := Run(p, Whole(false), ops);
      && |replies| == |ops|
      && Valid(t, p.height)
      && Live(t, p.chunk, p.height, p.start) == Held(p, ops, replies)
      && Separated(p, Held(p, ops, replies))
  {
    var (t, replies) := Run(p, Whole(false), ops);
    if ops != [] {
      var n := |ops| - 1;
      RunSafe(p, ops[..n]);
      var (t1, replies1) := Run(p, Whole(false), ops[..n]);
      assert replies[..n] == replies1;
      StepAgrees(p, t1, ops[n]);
    }
    LiveDisjoint(t, p.chunk, p.height, p.start);
    LiveWellPlaced(t, p.chunk, p.height, p.start);
  }

  /** Once everything has been given back the pool is as new, and a request for
      the whole of it is placed at its start. */
  lemma RunDrained(p: Shape, ops: seq<Op>, request: nat)
    requires Usable(p)
    requires var (_, replies) := Run(p, Whole(false), ops); |replies| == |ops| && Held(p, ops, replies) == {}
    ensures
      var (t, _) := Run(p, Whole(false), ops);
      t == Whole(false) && Step(p, t, Get(request)).1 == p.start
  {
    RunSafe(p, ops);
    var (t, _) := Run(p, Whole(false), ops);
    NoLiveIsClear(t, p.chunk, p.height, p.start);
    ClearStartsAtBase(p.chunk, p.height, p.start, request);
  }

  /** Run any sequence of operations on both pools: the replies are equal, and so
      are the flags they are left with. */
  method Lockstep(s: StaticPool.Pool, d: DynamicPool.Pool, ops: seq<Op>) returns (rs: seq<int>, rd: seq<int>)
    requires s.Valid() && d.Valid() && s.Outline() == d.Outline() && s.Contents() == d.Contents()
    modifies s.chunks, d, d.nodes
    ensures s.Valid() && d.Valid()
    ensures rs == rd == Run(s.Outline(), old(s.Contents()), ops).1
    ensures s.chunks[..] == d.flags
  {
    rs, rd := [], [];
    ghost var p := s.Outline();
    for i := 0 to |ops|
      invariant s.Valid() && d.Valid()
      invariant forall j :: 0 <= j < |d.nodes| && d.nodes[j] != null ==> d.nodes[j] in old(d.nodes) || fresh(d.nodes[j])
      invariant s.Contents() == d.Contents()
      invariant (s.Contents(), rs) == Run(p, old(s.Contents()), ops[..i])
      invariant rs == rd
    {
      assert ops[..i + 1][..i] == ops[..i];
      match ops[i] {
        case Get(request) =>
          var a := s.Allocate(request);
          var b := d.Allocate(request);
          rs, rd := rs + [a], rd + [b];
        case Put(address) =>
          var a := s.Free(address);
          var b := d.Free(address);
          rs, rd := rs + [a], rd + [b];
      }
    }
    assert ops[..|ops|] == ops;
    SameTreeSameFlags(s.chunks[..], d.flags);
  }
}
