/** Several pools on one heap: whatever the interleaving of allocations by their threads and of
    releases by any thread, each pool stays valid, every allocation is served by bytes of its
    own, and a block that nobody can use any more does not exist any more. */
module PoolRuns {
  import opened PoolAllocs

  // Two pools keep their statistics in arrays of their own
  predicate OwnArrays(p: Pool, q: Pool) {
    && p.allocSizes != q.allocSizes && p.allocSizes != q.hugeSizes
    && p.hugeSizes != q.allocSizes && p.hugeSizes != q.hugeSizes
  }

  // The current blocks of the pools
  ghost function Current(pools: set<Pool>): set<nat>
    reads pools
  {
    set p, id | p in pools && id in p.Mine() :: id
  }

  // A block with units that have not been handed out is the current block of a pool
  ghost predicate AllOwned(blocks: map<nat, Block>, current: set<nat>) {
    forall id :: id in blocks && blocks[id].frontier < BLOCK_UNITS ==> id in current
  }

  lemma StillOwned(before: map<nat, Block>, after: map<nat, Block>, mine: set<nat>, mine': set<nat>, others: set<nat>)
    requires AllOwned(before, mine + others) && Within(before, after, mine, mine')
    ensures AllOwned(after, mine' + others)
  {
  }

  ghost function Arrays(pools: set<Pool>): set<object>
    reads pools
  {
    (set p | p in pools :: p.allocSizes as object) + (set p | p in pools :: p.hugeSizes as object)
  }

  // Each pool has blocks and arrays of its own
  ghost predicate Distinct(pools: set<Pool>)
    reads pools
  {
    forall p, q :: p in pools && q in pools && p != q ==> OwnArrays(p, q) && p.Mine() !! q.Mine()
  }

  ghost predicate AllValid(pools: set<Pool>, heap: Heap)
    reads heap, pools, Arrays(pools)
  {
    forall p :: p in pools ==> p.heap == heap && p.Valid()
  }

  ghost predicate Together(pools: set<Pool>, heap: Heap)
    reads heap, pools, Arrays(pools)
  {
    && heap.Valid() && AllOwned(heap.blocks, Current(pools))
    && AllValid(pools, heap) && Distinct(pools)
  }

  lemma LessOwned(before: map<nat, Block>, after: map<nat, Block>, current: set<nat>, h: Header)
    requires AllOwned(before, current) && h.block in before
    requires after == before - {h.block} || after == before[h.block := Return(before[h.block], h.run)]
    ensures AllOwned(after, current)
  {
  }

  // What a pool needs of the heap
  lemma OwnBlockStays(
      before: map<nat, Block>, after: map<nat, Block>, mine: set<nat>, mine': set<nat>, yours: set<nat>)
    requires Within(before, after, mine, mine') && mine !! yours && forall id :: id in yours ==> id in before
    ensures mine' !! yours && forall id :: id in yours ==> id in after && after[id] == before[id]
  {
  }

  /** A new pool joins the others. */
  method NewPool(pools: set<Pool>, heap: Heap, delta: nat) returns (p: Pool)
    requires Together(pools, heap) && delta > 0
    ensures fresh(p) && p.delta == delta && Together(pools + {p}, heap)
  {
    hide BlockInv, AllRounded, AllOwned, Pool.Counts;
    p := new Pool(heap, delta);
    assert Current(pools + {p}) == Current(pools);
    forall q | q in pools ensures q.heap == heap && q.Valid() && OwnArrays(p, q) && OwnArrays(q, p) {
      assert old(q.heap == heap && q.Valid()) && old(allocated(q.allocSizes)) && q.Counts();
    }
  }

  /** An allocation by the thread of one pool. */
  method AllocBy(pools: set<Pool>, heap: Heap, p: Pool, size: nat) returns (h: Header)
    requires Together(pools, heap) && p in pools
    modifies p, heap, p.allocSizes, p.hugeSizes
    ensures Together(pools, heap)
    ensures OnlyAdds(old(heap.blocks), heap.blocks, h)
    ensures h.block in heap.blocks && h.run in heap.blocks[h.block].live
    ensures h.offset + HEADER_SIZE + size <= End(heap.blocks[h.block], h.run)
  {
    hide OnlyAdds, Within, BlockInv, AllRounded, IsHuge, Takes, Settle, Chosen, Round, Pool.Counts,
        Pool.UnitAfter, Pool.StaysInBlock, Pool.NextInside, Pool.HoldsHeaders, AllOwned;
    ghost var before, mine, others := heap.blocks, p.Mine(), Current(pools - {p});
    assert Current(pools) == mine + others;
    h := p.Alloc(size);
    StillOwned(before, heap.blocks, mine, p.Mine(), others);
    assert Current(pools - {p}) == others;
    assert Current(pools) == p.Mine() + others;
    forall q | q in pools && q != p ensures q.heap == heap && q.Valid() && p.Mine() !! q.Mine() {
      assert OwnArrays(p, q) && old(q.Valid());
      OwnBlockStays(before, heap.blocks, mine, p.Mine(), q.Mine());
      assert q.Counts();
    }
  }

  /** A release by any thread. */
  method FreeBy(pools: set<Pool>, heap: Heap, h: Header) returns (freed: bool)
    requires Together(pools, heap) && h.block in heap.blocks && h.run in heap.blocks[h.block].live
    modifies heap`blocks
    ensures Together(pools, heap)
    ensures Live(heap.blocks) == old(Live(heap.blocks)) - {(h.block, h.run)}
    ensures freed <==> h.block !in heap.blocks
  {
    hide BlockInv, AllRounded, Pool.Counts, Distinct, AllOwned;
    LiveRelease(heap.blocks, h.block, h.run);
    ghost var before := heap.blocks;
    freed := heap.Release(h);
    LessOwned(before, heap.blocks, Current(pools), h);
    forall p | p in pools ensures p.heap == heap && p.Valid() {
      assert old(p.heap == heap && p.Valid()) && p.Counts();
    }
  }

  // What a thread does next; a release names an allocation that is still held
  datatype Event = Allocate(p: Pool, size: nat) | Release(i: nat)

  // The allocations that are held
  ghost function Held(held: seq<Header>): set<(nat, Run)> { set h | h in held :: (h.block, h.run) }

  ghost predicate HeldOnce(held: seq<Header>) {
    forall i, j :: 0 <= i < j < |held| ==> (held[i].block, held[i].run) != (held[j].block, held[j].run)
  }

  lemma HeldMore(held: seq<Header>, h: Header)
    requires HeldOnce(held) && (h.block, h.run) !in Held(held)
    ensures HeldOnce(held + [h]) && Held(held + [h]) == Held(held) + {(h.block, h.run)}
  {
    assert forall i :: 0 <= i < |held| ==> held[i] in held;
  }

  lemma HeldLess(held: seq<Header>, i: nat)
    requires HeldOnce(held) && i < |held|
    ensures (held[i].block, held[i].run) in Held(held)
    ensures var rest := held[..i] + held[i + 1..];
            HeldOnce(rest) && Held(rest) == Held(held) - {(held[i].block, held[i].run)}
  {
    var rest := held[..i] + held[i + 1..];
    assert forall j :: 0 <= j < |rest| ==> rest[j] == held[if j < i then j else j + 1];
    forall h | h in held && h != held[i] ensures h in rest {
      var j :| 0 <= j < |held| && held[j] == h;
      assert rest[if j < i then j else j - 1] == h;
    }
    forall h | h in rest ensures h in held && (h.block, h.run) != (held[i].block, held[i].run) {
      var j :| 0 <= j < |rest| && rest[j] == h;
    }
  }

  // The bytes of different allocations do not overlap
  ghost predicate AllApart(blocks: map<nat, Block>, held: seq<Header>) {
    && (forall h :: h in held ==> h.block in blocks && h.run in blocks[h.block].live)
    && forall h, g :: h in held && g in held && h != g && h.block == g.block ==>
         var b := blocks[h.block]; End(b, h.run) <= Start(b, g.run) || End(b, g.run) <= Start(b, h.run)
  }

  /** Every run of the threads: at its end, as at every moment of it, the runs that the blocks
      record as in use are exactly the allocations that were made and not released, and every
      pool is valid. */
  method RunAll(pools: set<Pool>, heap: Heap, events: seq<Event>) returns (held: seq<Header>)
    requires Together(pools, heap) && Live(heap.blocks) == {}
    requires forall e :: e in events && e.Allocate? ==> e.p in pools
    modifies heap, pools, Arrays(pools)
    ensures Together(pools, heap) && HeldOnce(held) && Live(heap.blocks) == Held(held)
    ensures AllApart(heap.blocks, held)
  {
    hide BlockInv, OnlyAdds, HeldOnce, Held, Live;
    held := [];
    NothingHeld();
    for k := 0 to |events|
      invariant Together(pools, heap) && HeldOnce(held) && Live(heap.blocks) == Held(held)
    {
      match events[k]
      case Allocate(p, size) =>
        assert events[k] in events;
        ghost var before := heap.blocks;
        var h := AllocBy(pools, heap, p, size);
        Added(before, heap.blocks, h);
        HeldMore(held, h);
        held := held + [h];
      case Release(i) =>
        if i < |held| {
          HeldLess(held, i);
          LiveIs(heap.blocks, held[i]);
          var _ := FreeBy(pools, heap, held[i]);
          held := held[..i] + held[i + 1..];
        }
    }
    HeldApart(heap.blocks, held);
  }

  lemma NothingHeld()
    ensures HeldOnce([]) && Held([]) == {}
  {
  }

  lemma Added(before: map<nat, Block>, after: map<nat, Block>, h: Header)
    requires OnlyAdds(before, after, h)
    ensures (h.block, h.run) !in Live(before) && Live(after) == Live(before) + {(h.block, h.run)}
  {
  }

  lemma LiveIs(blocks: map<nat, Block>, h: Header)
    requires (h.block, h.run) in Live(blocks)
    ensures h.block in blocks && h.run in blocks[h.block].live
  {
  }

  lemma HeldApart(blocks: map<nat, Block>, held: seq<Header>)
    requires Live(blocks) == Held(held) && HeldOnce(held) && forall id :: id in blocks ==> BlockInv(blocks[id])
    ensures AllApart(blocks, held)
  {
    forall h | h in held ensures h.block in blocks && h.run in blocks[h.block].live {
      assert (h.block, h.run) in Held(held);
      LiveIs(blocks, h);
    }
    forall h, g | h in held && g in held && h != g && h.block == g.block
      ensures var b := blocks[h.block]; End(b, h.run) <= Start(b, g.run) || End(b, g.run) <= Start(b, h.run)
    {
      SameRun(held, h, g);
      BytesApart(blocks[h.block], h.run, g.run);
    }
  }

  lemma SameRun(held: seq<Header>, h: Header, g: Header)
    requires HeldOnce(held) && h in held && g in held && h != g
    ensures h.block == g.block ==> h.run != g.run
  {
    var i :| 0 <= i < |held| && held[i] == h;
    var j :| 0 <= j < |held| && held[j] == g;
    assert i != j;
  }

  /** No block is left over: when every allocation has been released and no pool has a current
      block, no block exists. */
  lemma NothingIsLeft(pools: set<Pool>, heap: Heap)
    requires Together(pools, heap) && Live(heap.blocks) == {} && forall p :: p in pools ==> p.Mine() == {}
    ensures heap.blocks == map[]
  {
    assert Current(pools) == {};
    if heap.blocks != map[] {
      var id :| id in heap.blocks;
      SomeLive(heap.blocks, id);
    }
  }

  lemma SomeLive(blocks: map<nat, Block>, id: nat)
    requires id in blocks && BlockInv(blocks[id]) && blocks[id].bitmap != {} && blocks[id].frontier == BLOCK_UNITS
    ensures Live(blocks) != {}
  {
    EmptyWhenAllBack(blocks[id]);
    var r :| r in blocks[id].live;
    assert (id, r) in Live(blocks);
  }
}
