/** The block allocator: blocks of 64 units, handed out from left to right in runs, which free
    themselves when all units have come back, and a unit size that follows the requests.

    A bitmap is the set of its units; `Bitmaps` shows that the word operations are the set
    operations.  Sizes are in bytes and unbounded. */
module PoolAllocs {

  const BLOCK_UNITS: nat := 64
  const HEADER_SIZE: nat := 16
  const ADJUST_GOAL: nat := 5
  const K_MAX: nat := (BLOCK_UNITS + ADJUST_GOAL - 1) / ADJUST_GOAL
  const HUGE_THRESHOLD: nat := BLOCK_UNITS / 8

  // ---------------------------------------------------------------------------
  // One block
  // ---------------------------------------------------------------------------

  // A run of units, lo up to but not including hi
  datatype Run = Run(lo: nat, hi: nat)

  // What the block stores is its bitmap.  The unit size, the number of units handed out and
  // the runs that are still in use are auxiliary.  A whole block serves one oversized request
  // and has just that many bytes
  datatype Block = Block(unit: nat, whole: bool, bitmap: set<nat>, frontier: nat, live: set<Run>)

  predicate Inside(r: Run, i: int) { r.lo <= i < r.hi }

  function Units(r: Run): set<nat> { set i: nat | i < r.hi && Inside(r, i) }

  function EmptyBlock(unit: nat, whole: bool): Block { Block(unit, whole, Units(Run(0, BLOCK_UNITS)), 0, {}) }

  // The bytes of a run, from its header on, relative to the data of its block
  function Start(b: Block, r: Run): nat { if b.whole then 0 else r.lo * b.unit }

  function End(b: Block, r: Run): nat { if b.whole then b.unit else r.hi * b.unit }

  function DataBytes(b: Block): nat { if b.whole then b.unit else BLOCK_UNITS * b.unit }

  // Handing out the next units does not touch the bitmap
  function Carve(b: Block, hi: nat): Block { b.(frontier := hi, live := b.live + {Run(b.frontier, hi)}) }

  // The fetch-and-and of header::release()
  function Return(b: Block, r: Run): Block { b.(bitmap := b.bitmap - Units(r), live := b.live - {r}) }

  predicate Apart(r: Run, q: Run) { r.hi <= q.lo || q.hi <= r.lo }

  ghost predicate InUse(live: set<Run>, i: int) { exists r :: r in live && Inside(r, i) }

  /** The runs in use are disjoint, and the bitmap is exactly the units in use and those that
      have not been handed out yet. */
  ghost predicate BlockInv(b: Block) {
    && b.frontier <= BLOCK_UNITS
    && (forall r :: r in b.live ==> r.lo < r.hi <= b.frontier)
    && (b.whole ==> forall r :: r in b.live ==> r == Run(0, BLOCK_UNITS))
    && (forall r, q :: r in b.live && q in b.live && r != q ==> Apart(r, q))
    && (forall i: nat :: i in b.bitmap <==> b.frontier <= i < BLOCK_UNITS || InUse(b.live, i))
  }

  lemma NewBlockInv(unit: nat, whole: bool)
    ensures BlockInv(EmptyBlock(unit, whole)) && EmptyBlock(unit, whole).bitmap != {}
  {
    assert 0 in Units(Run(0, BLOCK_UNITS));
  }

  lemma CarveInv(b: Block, hi: nat)
    requires BlockInv(b) && b.frontier < hi <= BLOCK_UNITS
    requires b.whole ==> b.frontier == 0 && hi == BLOCK_UNITS
    ensures BlockInv(Carve(b, hi)) && Run(b.frontier, hi) !in b.live
  {
    var b', r := Carve(b, hi), Run(b.frontier, hi);
    forall i: nat ensures InUse(b'.live, i) <==> InUse(b.live, i) || Inside(r, i) {
      if Inside(r, i) { assert r in b'.live; }
      if InUse(b.live, i) {
        var q :| q in b.live && Inside(q, i);
        assert q in b'.live;
      }
    }
    forall i: nat ensures i in b'.bitmap <==> b'.frontier <= i < BLOCK_UNITS || InUse(b'.live, i) {
      if InUse(b.live, i) {
        var q :| q in b.live && Inside(q, i);
      }
    }
  }

  lemma ReturnInv(b: Block, r: Run)
    requires BlockInv(b) && r in b.live
    ensures BlockInv(Return(b, r))
  {
    var b' := Return(b, r);
    forall i: nat ensures i in b'.bitmap <==> b'.frontier <= i < BLOCK_UNITS || InUse(b'.live, i) {
      if InUse(b'.live, i) {
        var q :| q in b'.live && Inside(q, i);
        assert Apart(q, r) && InUse(b.live, i);
      }
      if i in b'.bitmap && InUse(b.live, i) {
        var q :| q in b.live && Inside(q, i);
        assert q in b'.live;
      }
    }
  }

  /** The bitmap is empty exactly when every unit has been handed out and every run is back. */
  lemma EmptyWhenAllBack(b: Block)
    requires BlockInv(b)
    ensures b.bitmap == {} <==> b.frontier == BLOCK_UNITS && b.live == {}
  {
    if b.frontier < BLOCK_UNITS {
      assert b.frontier in b.bitmap;
    } else if b.live != {} {
      var r :| r in b.live;
      assert Inside(r, r.lo) && InUse(b.live, r.lo);
      assert r.lo in b.bitmap;
    }
  }

  /** Runs of one block are disjoint as bytes, too, and stay inside its data. */
  lemma BytesApart(b: Block, r: Run, q: Run)
    requires BlockInv(b) && r in b.live && q in b.live
    ensures r != q ==> End(b, r) <= Start(b, q) || End(b, q) <= Start(b, r)
    ensures End(b, r) <= DataBytes(b)
  {
    if r.hi <= q.lo { Monotone(r.hi, q.lo, b.unit); }
    if q.hi <= r.lo { Monotone(q.hi, r.lo, b.unit); }
    Monotone(r.hi, BLOCK_UNITS, b.unit);
  }

  lemma Monotone(x: nat, y: nat, k: nat)
    requires x <= y
    ensures x * k <= y * k
  {
  }

  /** A header fits at the start of every unit of a block exactly when a unit is at least as
      long as a header; with the default unit of 8 bytes it does not at the last one. */
  lemma HeaderFits(unit: nat)
    ensures (forall i: nat :: i < BLOCK_UNITS ==> i * unit + HEADER_SIZE <= BLOCK_UNITS * unit) <==> unit >= HEADER_SIZE
    ensures 63 * 8 + HEADER_SIZE > BLOCK_UNITS * 8
  {
    if unit >= HEADER_SIZE {
      forall i: nat | i < BLOCK_UNITS ensures i * unit + HEADER_SIZE <= BLOCK_UNITS * unit {
        Monotone(i + 1, BLOCK_UNITS, unit);
      }
    } else {
      assert 63 * unit + HEADER_SIZE > BLOCK_UNITS * unit;
    }
  }

  // ---------------------------------------------------------------------------
  // All blocks
  // ---------------------------------------------------------------------------

  // The header in front of an allocation
  datatype Header = Header(block: nat, run: Run, offset: nat)

  class Heap {
    var blocks: map<nat, Block>
    var next: nat              // numbers of blocks are never used again

    constructor ()
      ensures Valid() && blocks == map[]
    {
      blocks, next := map[], 0;
    }

    /** A block exists exactly as long as a unit of it is missing. */
    ghost predicate Valid()
      reads this
    {
      && (forall id :: id in blocks ==> id < next)
      && (forall id :: id in blocks ==> BlockInv(blocks[id]) && blocks[id].bitmap != {})
    }

    method Malloc(unit: nat, whole: bool) returns (id: nat)
      requires Valid()
      modifies this
      ensures Valid() && id !in old(blocks) && id == old(next) && next == old(next) + 1
      ensures blocks == old(blocks)[id := EmptyBlock(unit, whole)]
    {
      NewBlockInv(unit, whole);
      id := next;
      blocks, next := blocks[id := EmptyBlock(unit, whole)], next + 1;
    }

    // Auxiliary: the owner of the block has handed out more units
    method HandOut(id: nat, hi: nat)
      requires Valid() && id in blocks && blocks[id].frontier < hi <= BLOCK_UNITS
      requires blocks[id].whole ==> blocks[id].frontier == 0 && hi == BLOCK_UNITS
      modifies this`blocks
      ensures Valid() && blocks == old(blocks)[id := Carve(old(blocks[id]), hi)]
    {
      CarveInv(blocks[id], hi);
      blocks := blocks[id := Carve(blocks[id], hi)];
    }

    /** header::release(): one atomic step, in any thread.  The block is freed exactly when
        this was the last run in use and all units had been handed out. */
    method Release(h: Header) returns (freed: bool)
      requires Valid() && h.block in blocks && h.run in blocks[h.block].live
      modifies this`blocks
      ensures Valid()
      ensures freed <==> old(blocks[h.block]).frontier == BLOCK_UNITS && old(blocks[h.block]).live == {h.run}
      ensures blocks == if freed then old(blocks) - {h.block}
                        else old(blocks)[h.block := Return(old(blocks[h.block]), h.run)]
    {
      var b := Return(blocks[h.block], h.run);
      ReturnInv(blocks[h.block], h.run);
      EmptyWhenAllBack(b);
      freed := b.bitmap == {};
      blocks := if freed then blocks - {h.block} else blocks[h.block := b];
    }
  }

  // ---------------------------------------------------------------------------
  // Choosing a unit size
  // ---------------------------------------------------------------------------

  // The list that kth_biggest() keeps: a new size goes in front of all that are not bigger,
  // if there is room; but the list grows only by sizes that go to its end
  function Keep(top: seq<int>, k: nat, size: int): seq<int>
    requires 0 < |top| <= k
  {
    var index := InsertAt(top, size);
    if index == k then top
    else if index == |top| then top + [size]
    else (top[..index] + [size] + top[index..])[..|top|]
  }

  function InsertAt(top: seq<int>, size: int): (i: nat)
    ensures i <= |top| && (forall j :: 0 <= j < i ==> size < top[j]) && (i < |top| ==> size >= top[i])
  {
    if top == [] || size >= top[0] then 0 else 1 + InsertAt(top[1..], size)
  }

  function Kept(sizes: seq<int>, k: nat): (top: seq<int>)
    requires sizes != [] && k > 0
    ensures 0 < |top| <= k
  {
    if |sizes| == 1 then sizes
    else Keep(Kept(sizes[..|sizes| - 1], k), k, sizes[|sizes| - 1])
  }

  function KOf(n: nat): nat { (n + ADJUST_GOAL - 1) / ADJUST_GOAL }

  // The answer of kth_biggest()
  function Chosen(sizes: seq<int>): int
    requires sizes != []
  {
    var top := Kept(sizes, KOf(|sizes|));
    top[|top| - 1]
  }

  ghost predicate Sorted(top: seq<int>) { forall i, j :: 0 <= i < j < |top| ==> top[i] >= top[j] }

  lemma KeepLength(top: seq<int>, k: nat, size: int)
    requires 0 < |top| <= k
    ensures |Keep(top, k, size)| == if InsertAt(top, size) == |top| < k then |top| + 1 else |top|
  {
  }

  lemma KeepFull(top: seq<int>, k: nat, size: int)
    requires 0 < |top| <= k && InsertAt(top, size) == k
    ensures Keep(top, k, size) == top
  {
  }

  lemma KeepAt(top: seq<int>, k: nat, size: int, m: nat)
    requires 0 < |top| <= k && m < |Keep(top, k, size)|
    ensures m <= |top|
    ensures var index := InsertAt(top, size);
            Keep(top, k, size)[m] ==
              if index == k || m < index then (if m < |top| then top[m] else size)
              else if m == index then size else top[m - 1]
  {
    var index := InsertAt(top, size);
    if index < k && index < |top| {
      var whole := (top[..index] + [size]) + top[index..];
      assert Keep(top, k, size) == whole[..|top|];
      assert whole[m] == if m < index then top[m] else if m == index then size else top[index..][m - index - 1];
    }
  }

  lemma KeepIs(top: seq<int>, k: nat, size: int)
    requires 0 < |top| <= k && Sorted(top)
    ensures Sorted(Keep(top, k, size)) && FromAmong(Keep(top, k, size), top + [size])
    ensures Keep(top, k, size)[0] == if size > top[0] then size else top[0]
  {
    KeepLength(top, k, size);
    KeepAt(top, k, size, 0);
    var index, top', both := InsertAt(top, size), Keep(top, k, size), top + [size];
    assert both[|top|] == size;
    forall m | 0 <= m < |top'| ensures top'[m] in both {
      KeepAt(top, k, size, m);
      if index == k || m < index {
        assert top'[m] == both[m];
      } else if m > index {
        assert top'[m] == both[m - 1];
      }
    }
    KeepSorted(top, k, size);
  }

  lemma KeepSorted(top: seq<int>, k: nat, size: int)
    requires 0 < |top| <= k && Sorted(top)
    ensures Sorted(Keep(top, k, size))
  {
    KeepLength(top, k, size);
    var index, top' := InsertAt(top, size), Keep(top, k, size);
    forall m, n | 0 <= m < n < |top'| ensures top'[m] >= top'[n] {
      KeepAt(top, k, size, m);
      KeepAt(top, k, size, n);
      if index < k && m < index < n && n - 1 > m { assert top[m] >= top[n - 1]; }
      if index < k && index < |top| && n > index { assert size >= top[index] >= top[n - 1]; }
    }
  }

  ghost predicate FromAmong(xs: seq<int>, ys: seq<int>) { forall i :: 0 <= i < |xs| ==> xs[i] in ys }

  ghost predicate Biggest(x: int, sizes: seq<int>) { x in sizes && forall i :: 0 <= i < |sizes| ==> sizes[i] <= x }

  lemma FromAmongMore(xs: seq<int>, top: seq<int>, ys: seq<int>, y: int)
    requires FromAmong(xs, top + [y]) && FromAmong(top, ys)
    ensures FromAmong(xs, ys + [y])
  {
  }

  lemma BiggestOfMore(x: int, sizes: seq<int>, size: int)
    requires Biggest(x, sizes)
    ensures Biggest(if size > x then size else x, sizes + [size])
  {
  }

  ghost predicate KeptOk(top: seq<int>, sizes: seq<int>) {
    top != [] && Sorted(top) && FromAmong(top, sizes) && Biggest(top[0], sizes)
  }

  lemma KeptStep(sizes: seq<int>, k: nat, size: int)
    requires sizes != [] && k > 0 && KeptOk(Kept(sizes, k), sizes)
    ensures KeptOk(Kept(sizes + [size], k), sizes + [size])
  {
    hide Keep, Kept, Sorted, FromAmong, Biggest;
    var top := Kept(sizes, k);
    KeptAppend(sizes, k, size);
    KeepIs(top, k, size);
    FromAmongMore(Keep(top, k, size), top, sizes, size);
    BiggestOfMore(top[0], sizes, size);
  }

  /** kth_biggest() answers with one of the recorded sizes, and what it keeps is sorted and
      starts with the biggest of them. */
  lemma {:induction false} KeptIs(sizes: seq<int>, k: nat)
    requires sizes != [] && k > 0
    ensures KeptOk(Kept(sizes, k), sizes)
    decreases |sizes|
  {
    if |sizes| > 1 {
      hide KeptOk, Kept;
      var init, last := sizes[..|sizes| - 1], sizes[|sizes| - 1];
      assert sizes == init + [last];
      KeptIs(init, k);
      KeptStep(init, k, last);
    }
  }

  lemma KeptAppend(sizes: seq<int>, k: nat, size: int)
    requires sizes != [] && k > 0
    ensures Kept(sizes + [size], k) == Keep(Kept(sizes, k), k, size)
  {
    assert (sizes + [size])[..|sizes|] == sizes;
  }

  lemma ChosenIsRecorded(sizes: seq<int>)
    requires sizes != []
    ensures Chosen(sizes) in sizes
    ensures |sizes| == 1 ==> Chosen(sizes) == sizes[0]
  {
    var top := Kept(sizes, KOf(|sizes|));
    KeptIs(sizes, KOf(|sizes|));
    assert top[|top| - 1] in sizes;
  }

  /** It is not the k-th biggest: if the sizes came in ascending order, it is the biggest,
      however many there are. */
  lemma {:induction false} AscendingChoosesBiggest(sizes: seq<int>, k: nat)
    requires sizes != [] && k > 0 && forall i, j :: 0 <= i < j < |sizes| ==> sizes[i] < sizes[j]
    ensures Kept(sizes, k) == [sizes[|sizes| - 1]]
    decreases |sizes|
  {
    if |sizes| > 1 {
      AscendingChoosesBiggest(sizes[..|sizes| - 1], k);
    }
  }

  // kth_biggest(): the list is the head of a fixed array, and is shifted in place
  method KthBiggest(sizes: array<int>, n: nat) returns (size: int)
    requires 0 < n <= sizes.Length && n <= BLOCK_UNITS
    ensures size == Chosen(sizes[..n])
  {
    hide Keep, Kept;
    var topK := new int[K_MAX];
    var k := KOf(n);
    assert 0 < k <= K_MAX;
    var last: nat := 0;
    topK[0] := sizes[0];
    KeptOne(sizes[..1], k);
    for i := 1 to n
      invariant last < k && topK[..last + 1] == Kept(sizes[..i], k)
    {
      KeptAppend(sizes[..i], k, sizes[i]);
      assert sizes[..i + 1] == sizes[..i] + [sizes[i]];
      last := Insert(topK, k, last, sizes[i]);
    }
    size := topK[last];
  }

  lemma KeptOne(sizes: seq<int>, k: nat)
    requires |sizes| == 1 && k > 0
    ensures Kept(sizes, k) == sizes
  {
  }

  method Insert(topK: array<int>, k: nat, last: nat, size: int) returns (last': nat)
    requires last < k <= topK.Length
    modifies topK
    ensures last' < k && topK[..last' + 1] == Keep(old(topK[..last + 1]), k, size)
  {
    hide Keep;
    ghost var top := topK[..last + 1];
    // find the insertion point
    var index := 0;
    while index <= last && size < topK[index]
      invariant index <= last + 1 && forall j :: 0 <= j < index ==> size < topK[j]
    {
      index := index + 1;
    }
    assert index == InsertAt(top, size);
    KeepLength(top, k, size);
    ghost var kept := Keep(top, k, size);
    last' := last;
    if index == k {
      KeepFull(top, k, size);
      return;  // too small
    }
    MakeRoom(topK, k, index);
    topK[index] := size;
    if index > last {
      last' := index;
    }
    assert |kept| == last' + 1;
    forall m | 0 <= m < |kept| ensures topK[m] == kept[m] {
      KeepAt(top, k, size, m);
      if m < index {
        assert topK[m] == top[m];
      } else if m > index {
        assert topK[m] == top[m - 1];
      }
    }
  }

  // Bump everything else over
  method MakeRoom(topK: array<int>, k: nat, index: nat)
    requires index < k <= topK.Length
    modifies topK
    ensures forall m :: 0 <= m <= index ==> topK[m] == old(topK[m])
    ensures forall m :: index < m < k ==> topK[m] == old(topK[m - 1])
  {
    var j := k - 1;
    while j > index
      invariant index <= j < k
      invariant forall m :: 0 <= m <= j ==> topK[m] == old(topK[m])
      invariant forall m :: j < m < k ==> topK[m] == old(topK[m - 1])
    {
      topK[j] := topK[j - 1];
      j := j - 1;
    }
  }

  // ---------------------------------------------------------------------------
  // The pool
  // ---------------------------------------------------------------------------

  // What clients hold
  ghost function Live(blocks: map<nat, Block>): set<(nat, Run)> {
    set id, r | id in blocks && r in blocks[id].live :: (id, r)
  }

  lemma LiveMalloc(blocks: map<nat, Block>, id: nat, b: Block)
    requires id !in blocks && b.live == {}
    ensures Live(blocks[id := b]) == Live(blocks)
  {
  }

  lemma LiveRelease(blocks: map<nat, Block>, id: nat, r: Run)
    requires id in blocks && r in blocks[id].live
    ensures Live(blocks[id := Return(blocks[id], r)]) == Live(blocks) - {(id, r)}
    ensures blocks[id].live == {r} ==> Live(blocks - {id}) == Live(blocks) - {(id, r)}
  {
  }

  // Sizes as alloc() rounds them: with room for the header, and a multiple of eight
  predicate IsRounded(size: int) { size >= HEADER_SIZE && size % 8 == 0 }

  ghost predicate AllRounded(sizes: seq<int>) { forall i :: 0 <= i < |sizes| ==> IsRounded(sizes[i]) }

  function Round(size: nat): nat { (size + HEADER_SIZE + 7) / 8 * 8 }

  lemma RoundIs(size: nat)
    ensures IsRounded(Round(size)) && size + HEADER_SIZE <= Round(size) < size + HEADER_SIZE + 8
  {
  }

  // An allocation of at least this many bytes, header included
  ghost predicate Serves(blocks: map<nat, Block>, h: Header, size: nat) {
    && h.block in blocks && h.run in blocks[h.block].live
    && h.offset == Start(blocks[h.block], h.run)
    && End(blocks[h.block], h.run) - h.offset >= size
  }

  // Less than one unit more than this
  ghost predicate Tight(blocks: map<nat, Block>, h: Header, size: nat) {
    h.block in blocks && End(blocks[h.block], h.run) - h.offset - blocks[h.block].unit < size
  }

  lemma CarvedServes(blocks: map<nat, Block>, h: Header, size: nat, remaining: int)
    requires h.block in blocks && h.run in blocks[h.block].live && !blocks[h.block].whole && h.run.lo < h.run.hi
    requires h.offset == h.run.lo * blocks[h.block].unit
    requires remaining == size - (h.run.hi - h.run.lo) * blocks[h.block].unit
    requires remaining <= 0 ==> (h.run.hi - h.run.lo - 1) * blocks[h.block].unit < size
    ensures remaining <= 0 ==> Serves(blocks, h, size) && Tight(blocks, h, size)
  {
    RunBytes(h.run.lo, h.run.hi, blocks[h.block].unit);
    OneMore(h.run.hi - h.run.lo - 1, blocks[h.block].unit);
  }

  // Allocations that clients hold stay where they are
  ghost predicate Undisturbed(before: map<nat, Block>, after: map<nat, Block>) {
    forall id, r :: id in before && r in before[id].live ==>
      && id in after && r in after[id].live
      && after[id].unit == before[id].unit && after[id].whole == before[id].whole
  }

  ghost predicate SameLive(before: map<nat, Block>, after: map<nat, Block>) {
    Live(after) == Live(before) && Undisturbed(before, after)
  }

  // The only change that clients can see is one more allocation
  ghost predicate OnlyAdds(before: map<nat, Block>, after: map<nat, Block>, h: Header) {
    && (h.block, h.run) !in Live(before)
    && Live(after) == Live(before) + {(h.block, h.run)}
    && Undisturbed(before, after)
  }

  lemma HandOutAdds(blocks: map<nat, Block>, h: Header)
    requires h.block in blocks && BlockInv(blocks[h.block])
    requires blocks[h.block].frontier == h.run.lo < h.run.hi <= BLOCK_UNITS
    requires blocks[h.block].whole ==> h.run == Run(0, BLOCK_UNITS)
    ensures OnlyAdds(blocks, blocks[h.block := Carve(blocks[h.block], h.run.hi)], h)
  {
    CarveInv(blocks[h.block], h.run.hi);
  }

  // Handing out a run and releasing it again
  lemma ReleaseUndoes(before: map<nat, Block>, blocks: map<nat, Block>, h: Header, freed: bool)
    requires OnlyAdds(before, blocks, h) && h.block in blocks && h.run in blocks[h.block].live
    requires freed ==> blocks[h.block].live == {h.run}
    ensures SameLive(before, if freed then blocks - {h.block} else blocks[h.block := Return(blocks[h.block], h.run)])
  {
    LiveRelease(blocks, h.block, h.run);
    forall id, r | id in before && r in before[id].live ensures id != h.block || r != h.run {
      assert (id, r) in Live(before);
    }
  }

  // A pool whose blocks were `mine` touches no other block that there was; its blocks
  // afterwards are old or new ones of its own; and it leaves no block behind that has not been
  // handed out completely
  ghost predicate Within(before: map<nat, Block>, after: map<nat, Block>, mine: set<nat>, mine': set<nat>) {
    && (forall id :: id in before && id !in mine ==> id in after && after[id] == before[id])
    && (forall id :: id in mine' ==> id in mine || id !in before)
    && (forall id :: id in after && after[id].frontier < BLOCK_UNITS ==> id in mine' || (id in before && id !in mine))
  }

  lemma WithinThenWithin(
      before: map<nat, Block>, mid: map<nat, Block>, after: map<nat, Block>,
      mine: set<nat>, mine1: set<nat>, mine2: set<nat>)
    requires Within(before, mid, mine, mine1) && Within(mid, after, mine1, mine2)
    ensures Within(before, after, mine, mine2)
  {
  }

  // A block that gets more units out, or a new one
  lemma WithinUpdate(before: map<nat, Block>, id: nat, b: Block, mine: set<nat>, mine': set<nat>)
    requires id in before ==> id in mine
    requires mine <= {id} && mine' == (if b.frontier < BLOCK_UNITS then {id} else {})
    ensures Within(before, before[id := b], mine, mine')
  {
  }

  // A new block that is handed out at once
  lemma WithinWhole(before: map<nat, Block>, id: nat, b: Block, mine: set<nat>)
    requires id !in before && b.frontier == BLOCK_UNITS
    ensures Within(before, before[id := b], mine, mine)
  {
  }

  lemma SameRefl(blocks: map<nat, Block>, mine: set<nat>)
    ensures SameLive(blocks, blocks) && Within(blocks, blocks, mine, mine)
  {
  }

  lemma SameThenAdds(before: map<nat, Block>, mid: map<nat, Block>, after: map<nat, Block>, h: Header)
    requires SameLive(before, mid) && OnlyAdds(mid, after, h)
    ensures OnlyAdds(before, after, h)
  {
  }

  lemma MallocSame(blocks: map<nat, Block>, id: nat, b: Block)
    requires id !in blocks && b.live == {}
    ensures SameLive(blocks, blocks[id := b])
  {
    LiveMalloc(blocks, id, b);
  }

  // So many units serve a request, and one less would not
  predicate Takes(units: nat, size: nat, unit: nat) { (units - 1) * unit < size <= units * unit }

  // The bytes of the units that have not been handed out
  function Room(nextUnit: nat, unit: int): int { (BLOCK_UNITS - nextUnit) * unit }

  // The header of the next allocation, or of the rest, is written inside the data of the block
  predicate HeaderInside(nextUnit: nat, unit: int) { Room(nextUnit, unit) >= HEADER_SIZE }

  // The unit size once a new block with this unit has been tried
  function Settle(unit: int, size: nat): int { if size <= Room(0, unit) then unit else size }

  // After one undersized attempt in a new block the unit is the size itself
  lemma SettleOnSize(size: nat)
    requires size > 0
    ensures Chosen([size]) == size && Settle(size, size) == size
  {
    ChosenIsRecorded([size]);
  }

  lemma UnitFits(nextUnit: nat, unit: nat)
    requires nextUnit < BLOCK_UNITS && unit >= HEADER_SIZE
    ensures HeaderInside(nextUnit, unit)
  {
    Monotone(1, BLOCK_UNITS - nextUnit, unit);
  }

  // The header at unit `lo` of a block ends inside its data exactly if the rest can hold one
  lemma HeaderAt(lo: nat, unit: nat)
    requires lo <= BLOCK_UNITS
    ensures lo * unit + HEADER_SIZE <= BLOCK_UNITS * unit <==> HeaderInside(lo, unit)
  {
    RunBytes(lo, BLOCK_UNITS, unit);
  }

  class Pool {
    const heap: Heap
    var block: nat
    var nextUnit: nat        // the position of the marching bit; BLOCK_UNITS when it has fallen out
    var delta: nat
    var offset: nat
    var allocCount: nat
    var hugeCount: nat
    const allocSizes: array<int>
    const hugeSizes: array<int>
    ghost var headersInside: bool  // every header so far was written inside the data of its block

    constructor (heap: Heap, delta: nat)
      requires heap.Valid() && delta > 0
      ensures this.heap == heap && Valid() && this.delta == delta && fresh(allocSizes) && fresh(hugeSizes)
      ensures nextUnit == BLOCK_UNITS && allocCount == 0 && hugeCount == 0 && headersInside
    {
      this.heap := heap;
      block, nextUnit, this.delta, offset, allocCount, hugeCount := 0, BLOCK_UNITS, delta, 0, 0, 0;
      allocSizes := new int[BLOCK_UNITS];
      hugeSizes := new int[BLOCK_UNITS];
      headersInside := true;
    }

    // The current block, if there is one
    ghost function Mine(): set<nat>
      reads this
    {
      if nextUnit < BLOCK_UNITS then {block} else {}
    }

    // It belongs to this pool alone
    ghost predicate OwnsBlock()
      reads this, heap
    {
      nextUnit < BLOCK_UNITS ==>
        && block in heap.blocks && !heap.blocks[block].whole
        && heap.blocks[block].frontier == nextUnit && heap.blocks[block].unit == delta
    }

    ghost predicate Counts()
      reads this, allocSizes, hugeSizes
    {
      && allocSizes != hugeSizes && allocSizes.Length == BLOCK_UNITS == hugeSizes.Length
      && nextUnit <= BLOCK_UNITS && delta > 0 && (nextUnit < BLOCK_UNITS ==> offset == nextUnit * delta)
      && allocCount <= nextUnit && hugeCount <= K_MAX + 1
      && AllRounded(Normal()) && AllRounded(Huge())
    }

    // The recorded sizes
    ghost function Normal(): seq<int>
      requires allocCount <= allocSizes.Length
      reads this, allocSizes
    {
      allocSizes[..allocCount]
    }

    ghost function Huge(): seq<int>
      requires hugeCount <= hugeSizes.Length
      reads this, hugeSizes
    {
      hugeSizes[..hugeCount]
    }

    /** The arrays of recorded sizes never overflow: there are at most as many normal requests
        as units handed out, and at most K_MAX huge ones between two calls. */
    ghost predicate Valid()
      reads this, heap, allocSizes, hugeSizes
    {
      heap.Valid() && OwnsBlock() && Counts() && hugeCount <= K_MAX
    }

    // The next header would be written inside
    ghost predicate NextInside()
      reads this
    {
      nextUnit < BLOCK_UNITS ==> HeaderInside(nextUnit, delta)
    }

    /** With a unit that can hold a header, no header was or will be written outside. */
    ghost predicate HoldsHeaders()
      reads this
    {
      delta >= HEADER_SIZE && headersInside
    }

    // get_header(): the header is written at the offset
    method GetHeader(id: nat, run: Run, offset: nat) returns (h: Header)
      requires id in heap.blocks
      modifies this`headersInside
      ensures h == Header(id, run, offset)
      ensures headersInside == (old(headersInside) && offset + HEADER_SIZE <= DataBytes(heap.blocks[id]))
    {
      headersInside := headersInside && offset + HEADER_SIZE <= DataBytes(heap.blocks[id]);
      h := Header(id, run, offset);
    }

    // discard_block(): take what is left of the block and give it back
    method DiscardBlock()
      requires heap.Valid() && OwnsBlock() && Counts()
      modifies this`nextUnit, this`headersInside, heap`blocks
      ensures heap.Valid() && OwnsBlock() && Counts() && nextUnit == BLOCK_UNITS
      ensures headersInside == (old(headersInside) && old(NextInside()))
      ensures SameLive(old(heap.blocks), heap.blocks)
      ensures Within(old(heap.blocks), heap.blocks, old(Mine()), Mine())
    {
      hide HeaderInside, BlockInv, SameLive, OnlyAdds, AllRounded, Within;
      SameRefl(heap.blocks, {});
      if nextUnit < BLOCK_UNITS {
        ghost var before, id := heap.blocks, block;
        HeaderAt(nextUnit, delta);
        var rest := GetHeader(block, Run(nextUnit, BLOCK_UNITS), offset);
        HandOutAdds(before, rest);
        WithinUpdate(before, block, Carve(before[block], BLOCK_UNITS), {block}, {});
        heap.HandOut(block, BLOCK_UNITS);
        ghost var handed := heap.blocks;
        var freed := heap.Release(rest);
        ReleaseUndoes(before, handed, rest, freed);
        WithinReleased(before, handed, heap.blocks, {id}, id);
        nextUnit := BLOCK_UNITS;
      }
    }

    // new_block()
    method NewBlock()
      requires heap.Valid() && Counts() && nextUnit == BLOCK_UNITS
      modifies this`nextUnit, this`offset, this`allocCount, this`hugeCount, this`block, heap
      ensures heap.Valid() && OwnsBlock() && Counts()
      ensures nextUnit == 0 && allocCount == 0 && hugeCount == 0 && block !in old(heap.blocks)
      ensures SameLive(old(heap.blocks), heap.blocks)
      ensures Within(old(heap.blocks), heap.blocks, {}, Mine())
    {
      hugeCount := 0;
      allocCount := 0;
      nextUnit := 0;
      MallocSame(heap.blocks, heap.next, EmptyBlock(delta, false));
      WithinUpdate(heap.blocks, heap.next, EmptyBlock(delta, false), {}, {heap.next});
      block := heap.Malloc(delta, false);
      offset := 0;
    }

    // The do-while loop that carves out units
    method CarveUnits(size: nat) returns (lo: nat, remaining: int)
      requires nextUnit < BLOCK_UNITS && size > 0 && delta > 0 && offset == nextUnit * delta
      modifies this`nextUnit, this`offset
      ensures lo == old(nextUnit) < nextUnit <= BLOCK_UNITS && offset == nextUnit * delta
      ensures remaining == size - (nextUnit - lo) * delta && remaining <= size - delta
      ensures remaining > 0 <==> size > Room(lo, delta)
      ensures remaining > 0 ==> nextUnit == BLOCK_UNITS
      ensures remaining <= 0 ==> Takes(nextUnit - lo, size, delta)
    {
      lo := nextUnit;
      nextUnit := nextUnit + 1;
      remaining := size - delta;
      offset := offset + delta;
      OneMore(lo, delta);
      while remaining > 0 && nextUnit < BLOCK_UNITS
        invariant lo < nextUnit <= BLOCK_UNITS && offset == nextUnit * delta
        invariant remaining == size - (nextUnit - lo) * delta && remaining <= size - delta
        invariant (nextUnit - lo - 1) * delta < size
      {
        OneMore(nextUnit, delta);
        OneMore(nextUnit - lo, delta);
        nextUnit := nextUnit + 1;
        remaining := remaining - delta;
        offset := offset + delta;
      }
      Monotone(nextUnit - lo, BLOCK_UNITS - lo, delta);
    }

    // The size at which the next adaptation would stop the retries
    ghost function Rank(size: nat): nat
      requires Counts()
      reads this, allocSizes, hugeSizes
    {
      if nextUnit < BLOCK_UNITS then 2
      else if Normal() == [size] then 0
      else 1
    }

    // The unit size after a normal request: the choice of the recorded normal sizes, whenever a
    // block has to be left behind, and the very size if even a whole block is too small
    ghost function UnitAfter(size: nat): int
      requires Counts()
      reads this, allocSizes, hugeSizes
    {
      if nextUnit == BLOCK_UNITS then Settle(if allocCount == 0 then delta else Chosen(Normal()), size)
      else if StaysInBlock(size) then delta
      else Settle(Chosen(Normal() + [size]), size)
    }

    ghost predicate StaysInBlock(size: nat)
      requires nextUnit <= BLOCK_UNITS
      reads this
    {
      nextUnit < BLOCK_UNITS && size <= Room(nextUnit, delta)
    }

    // The beginning of allocate_normal(): a full block is left behind, and the unit size
    // follows the sizes that it served
    method Renew()
      requires heap.Valid() && OwnsBlock() && Counts() && nextUnit == BLOCK_UNITS
      modifies this`nextUnit, this`offset, this`allocCount, this`hugeCount, this`block, this`delta, heap
      ensures heap.Valid() && OwnsBlock() && Counts() && nextUnit == 0 && allocCount == 0 && hugeCount == 0
      ensures delta == if old(allocCount) == 0 then old(delta) else Chosen(old(Normal()))
      ensures (delta == old(delta) || IsRounded(delta)) && block !in old(heap.blocks)
      ensures SameLive(old(heap.blocks), heap.blocks)
      ensures Within(old(heap.blocks), heap.blocks, {}, Mine())
    {
      hide Chosen, Within, SameLive;
      if allocCount > 0 {
        RoundedChosen(Normal());
        delta := KthBiggest(allocSizes, allocCount);
      }
      NewBlock();
    }

    // Record the size and carve the units
    method Carved(size: nat) returns (h: Header, remaining: int)
      requires heap.Valid() && OwnsBlock() && Counts() && nextUnit < BLOCK_UNITS && IsRounded(size)
      modifies this`nextUnit, this`offset, this`allocCount, this`headersInside, heap`blocks, allocSizes
      ensures heap.Valid() && OwnsBlock() && Counts()
      ensures headersInside == (old(headersInside) && HeaderInside(old(nextUnit), delta))
      ensures OnlyAdds(old(heap.blocks), heap.blocks, h)
      ensures h.block == block && block in heap.blocks && h.run in heap.blocks[h.block].live
      ensures heap.blocks[block].frontier == nextUnit
      ensures Within(old(heap.blocks), heap.blocks, {block}, Mine())
      ensures remaining <= 0 <==> old(StaysInBlock(size))
      ensures remaining <= 0 ==> Serves(heap.blocks, h, size) && Tight(heap.blocks, h, size)
      ensures remaining <= 0 ==> old(nextUnit) < nextUnit && Takes(nextUnit - old(nextUnit), size, delta)
      ensures remaining > 0 ==> nextUnit == BLOCK_UNITS && size > delta
      ensures Normal() == old(Normal()) + [size]
    {
      hide OnlyAdds, BlockInv, AllRounded, Serves, Within, HeaderInside;
      Record(size);
      ghost var before := heap.blocks;
      var start := offset;
      HeaderAt(nextUnit, delta);
      // the range of the header is filled in while the units are carved out
      h := GetHeader(block, Run(nextUnit, nextUnit), start);
      var lo;
      lo, remaining := CarveUnits(size);
      h := h.(run := Run(lo, nextUnit));
      HandOutAdds(before, h);
      WithinUpdate(before, block, Carve(before[block], nextUnit), {block}, Mine());
      heap.HandOut(block, nextUnit);
      CarvedServes(heap.blocks, h, size, remaining);
    }

    method Record(size: nat)
      requires Counts() && nextUnit < BLOCK_UNITS && IsRounded(size)
      modifies this`allocCount, allocSizes
      ensures allocCount == old(allocCount) + 1 && Normal() == old(Normal()) + [size]
      ensures AllRounded(Normal()) && AllRounded(Huge())
    {
      ghost var before, huge := Normal(), Huge();
      allocSizes[allocCount] := size;
      allocCount := allocCount + 1;
      assert Normal() == before + [size];
      assert Huge() == huge;
      RoundedMore(before, size);
    }

    // allocate_normal() up to the point where it may have to try again
    method Attempt(size: nat) returns (h: Header, remaining: int)
      requires heap.Valid() && OwnsBlock() && Counts() && IsRounded(size)
      modifies this, heap, allocSizes
      ensures heap.Valid() && OwnsBlock() && Counts()
      ensures OnlyAdds(old(heap.blocks), heap.blocks, h)
      ensures h.block == block && block in heap.blocks && h.run in heap.blocks[h.block].live
      ensures heap.blocks[block].frontier == nextUnit && (block in old(Mine()) || block !in old(heap.blocks))
      ensures Within(old(heap.blocks), heap.blocks, old(Mine()), Mine())
      ensures delta ==
                (if old(nextUnit) == BLOCK_UNITS && old(allocCount) > 0 then Chosen(old(Normal())) else old(delta))
      ensures delta == old(delta) || IsRounded(delta)
      ensures Normal() == (if old(nextUnit) == BLOCK_UNITS then [] else old(Normal())) + [size]
      ensures headersInside == (old(headersInside) && old(NextInside()))
      ensures hugeCount <= old(hugeCount) && (old(nextUnit) == BLOCK_UNITS ==> hugeCount == 0)
      ensures var lo := if old(nextUnit) == BLOCK_UNITS then 0 else old(nextUnit);
              && (remaining <= 0 <==> size <= Room(lo, delta))
              && (remaining <= 0 ==> lo < nextUnit && Takes(nextUnit - lo, size, delta))
      ensures remaining <= 0 ==> Serves(heap.blocks, h, size) && Tight(heap.blocks, h, size)
      ensures remaining > 0 ==> nextUnit == BLOCK_UNITS && size > delta
    {
      hide SameLive, OnlyAdds, Serves, Tight, BlockInv, Within, Chosen, HeaderInside, Room, Takes, AllRounded;
      ghost var before, mine := heap.blocks, Mine();
      SameRefl(before, mine);
      // is the previous block full?
      if nextUnit == BLOCK_UNITS {
        Renew();
        UnitAtStart(delta);
      }
      ghost var renewed := heap.blocks;
      h, remaining := Carved(size);
      SameThenAdds(before, renewed, heap.blocks, h);
      WithinThenWithin(before, renewed, heap.blocks, mine, {block}, Mine());
    }

    // Free an undersized allocation, as if it had not been made
    method GiveBack(h: Header, ghost before: map<nat, Block>, ghost mine: set<nat>)
      requires heap.Valid() && nextUnit == BLOCK_UNITS
      requires h.block in heap.blocks && h.run in heap.blocks[h.block].live
      requires heap.blocks[h.block].frontier == BLOCK_UNITS && (h.block in mine || h.block !in before)
      requires OnlyAdds(before, heap.blocks, h) && Within(before, heap.blocks, mine, {})
      modifies heap`blocks
      ensures heap.Valid() && SameLive(before, heap.blocks) && Within(before, heap.blocks, mine, {})
    {
      hide BlockInv, OnlyAdds, SameLive, Within;
      ghost var handed := heap.blocks;
      var freed := heap.Release(h);
      ReleaseUndoes(before, handed, h, freed);
      WithinReleased(before, handed, heap.blocks, mine, h.block);
    }

    /** allocate_normal(): at most two retries for any size and any history.  The result holds
        the request and less than one unit more, and for everybody else nothing changes.  It
        also says which unit size comes out, how far the marching bit moves, and whether the
        headers that were written lie inside their blocks: only the first one can lie outside. */
    method AllocateNormal(size: nat) returns (h: Header, retries: nat)
      requires heap.Valid() && OwnsBlock() && Counts() && IsRounded(size)
      modifies this, heap, allocSizes
      ensures heap.Valid() && OwnsBlock() && Counts()
      ensures OnlyAdds(old(heap.blocks), heap.blocks, h) && Serves(heap.blocks, h, size)
      ensures Tight(heap.blocks, h, size)
      ensures retries <= old(Rank(size)) <= 2
      ensures delta == old(UnitAfter(size)) && (delta == old(delta) || IsRounded(delta))
      ensures var lo := if old(StaysInBlock(size)) then old(nextUnit) else 0;
              lo < nextUnit && Takes(nextUnit - lo, size, delta)
      ensures headersInside == (old(headersInside) && old(NextInside()))
      ensures hugeCount <= old(hugeCount) && (old(nextUnit) == BLOCK_UNITS ==> hugeCount == 0)
      ensures Within(old(heap.blocks), heap.blocks, old(Mine()), Mine())
      decreases Rank(size)
    {
      hide SameLive, OnlyAdds, Serves, Tight, BlockInv, Within, Chosen, HeaderInside, Room, Takes, AllRounded;
      ghost var before, mine := heap.blocks, Mine();
      SettleOnSize(size);
      var remaining;
      h, remaining := Attempt(size);
      retries := 0;
      // out of space?
      if remaining > 0 {
        GiveBack(h, before, mine);
        ghost var released := heap.blocks;
        h, retries := AllocateNormal(size);
        SameThenAdds(before, released, heap.blocks, h);
        WithinThenWithin(before, released, heap.blocks, mine, {}, Mine());
        retries := retries + 1;
      }
    }

    method RecordHuge(size: nat)
      requires Counts() && hugeCount <= K_MAX && IsRounded(size)
      modifies this`hugeCount, hugeSizes
      ensures Counts() && hugeCount == old(hugeCount) + 1 && Huge() == old(Huge()) + [size]
      ensures Normal() == old(Normal())
    {
      ghost var before, normal := Huge(), Normal();
      hugeSizes[hugeCount] := size;
      hugeCount := hugeCount + 1;
      assert Huge() == before + [size];
      assert Normal() == normal;
      RoundedMore(before, size);
    }

    // The unit size follows the huge requests, and a normal request is made
    method FollowHuge(size: nat) returns (h: Header)
      requires heap.Valid() && OwnsBlock() && Counts() && hugeCount > 0 && IsRounded(size)
      modifies this, heap, allocSizes
      ensures heap.Valid() && OwnsBlock() && Counts() && hugeCount == 0
      ensures OnlyAdds(old(heap.blocks), heap.blocks, h) && Serves(heap.blocks, h, size) && Tight(heap.blocks, h, size)
      ensures delta == Settle(Chosen(if old(allocCount) == 0 then old(Huge()) else old(Normal())), size)
      ensures Takes(nextUnit, size, delta) && (delta == old(delta) || IsRounded(delta))
      ensures headersInside == (old(headersInside) && old(NextInside()))
      ensures Within(old(heap.blocks), heap.blocks, old(Mine()), Mine())
    {
      hide SameLive, OnlyAdds, Serves, Tight, BlockInv, AllRounded, Within, Chosen, HeaderInside, Takes, Room;
      ghost var before, mine := heap.blocks, Mine();
      DiscardBlock();
      ghost var discarded := heap.blocks;
      RoundedChosen(Huge());
      delta := KthBiggest(hugeSizes, hugeCount);
      var retries;
      h, retries := AllocateNormal(size);
      SameThenAdds(before, discarded, heap.blocks, h);
      WithinThenWithin(before, discarded, heap.blocks, mine, {}, Mine());
    }

    // A block that's just the size, for this request alone
    method OwnBlock(size: nat) returns (h: Header)
      requires heap.Valid() && OwnsBlock() && size >= HEADER_SIZE
      modifies this`headersInside, heap
      ensures heap.Valid() && OwnsBlock() && headersInside == old(headersInside)
      ensures OnlyAdds(old(heap.blocks), heap.blocks, h) && Serves(heap.blocks, h, size)
      ensures heap.blocks[h.block].whole && heap.blocks[h.block].unit == size
      ensures Within(old(heap.blocks), heap.blocks, Mine(), Mine())
    {
      hide SameLive, OnlyAdds, Serves, BlockInv, Within;
      ghost var before := heap.blocks;
      MallocSame(before, heap.next, EmptyBlock(size, true));
      var id := heap.Malloc(size, true);
      ghost var emptied := heap.blocks;
      h := GetHeader(id, Run(0, BLOCK_UNITS), 0);
      EmptyBlockInv(size);
      HandOutAdds(emptied, h);
      heap.HandOut(id, BLOCK_UNITS);
      SameThenAdds(before, emptied, heap.blocks, h);
      WithinWhole(before, id, heap.blocks[id], Mine());
      assert heap.blocks == before[id := heap.blocks[id]];
      WholeServes(heap.blocks, h, size);
      assert h.block in heap.blocks && heap.blocks[h.block].whole && heap.blocks[h.block].unit == size;
    }

    /** allocate_huge(): a block of its own, until too many have asked for one.  Then a normal
        request is made, with a unit chosen from the huge sizes only if no normal size is
        recorded; otherwise the choice of the normal sizes overrides it at once. */
    method AllocateHuge(size: nat) returns (h: Header)
      requires Valid() && IsRounded(size)
      modifies this, heap, allocSizes, hugeSizes
      ensures Valid()
      ensures OnlyAdds(old(heap.blocks), heap.blocks, h) && Serves(heap.blocks, h, size)
      ensures Tight(heap.blocks, h, size) || heap.blocks[h.block].whole
      ensures old(hugeCount) < K_MAX ==>
                && delta == old(delta) && nextUnit == old(nextUnit) && headersInside == old(headersInside)
                && Normal() == old(Normal()) && Huge() == old(Huge()) + [size]
                && heap.blocks[h.block].whole && heap.blocks[h.block].unit == size
      ensures old(hugeCount) == K_MAX ==>
                && delta == Settle(Chosen(if old(allocCount) == 0 then old(Huge()) + [size] else old(Normal())), size)
                && headersInside == (old(headersInside) && old(NextInside()))
                && hugeCount == 0 && Takes(nextUnit, size, delta)
      ensures delta == old(delta) || IsRounded(delta)
      ensures Within(old(heap.blocks), heap.blocks, old(Mine()), Mine())
    {
      hide OnlyAdds, Tight, BlockInv, AllRounded, Within, Chosen, HeaderInside, Takes, Room, Settle;
      RecordHuge(size);
      if hugeCount > K_MAX {
        h := FollowHuge(size);
      } else {
        h := OwnBlock(size);
      }
    }

    /** alloc(): the client gets at least the bytes it asked for, in a run that no other
        client's run overlaps; nobody else's allocation moves.  A header is written outside of
        its block exactly if the request goes to a current block whose rest cannot hold one,
        and never with a unit of at least the size of a header. */
    method Alloc(size: nat) returns (h: Header)
      requires Valid()
      modifies this, heap, allocSizes, hugeSizes
      ensures Valid()
      ensures OnlyAdds(old(heap.blocks), heap.blocks, h)
      ensures h.block in heap.blocks && h.run in heap.blocks[h.block].live
      ensures h.offset == Start(heap.blocks[h.block], h.run)
      ensures h.offset + HEADER_SIZE + size <= End(heap.blocks[h.block], h.run)
      ensures delta == old(delta) || IsRounded(delta)
      ensures headersInside ==
                (old(headersInside) && (old(UsesBlock(Round(size))) ==> old(NextInside())))
      ensures old(HoldsHeaders()) ==> HoldsHeaders()
      ensures IsHuge(Round(size), old(delta)) && old(hugeCount) < K_MAX ==>
                && heap.blocks[h.block].whole && heap.blocks[h.block].unit == Round(size)
                && delta == old(delta) && nextUnit == old(nextUnit) && hugeCount == old(hugeCount) + 1
      ensures IsHuge(Round(size), old(delta)) && old(hugeCount) == K_MAX ==>
                hugeCount == 0 && Takes(nextUnit, Round(size), delta)
      ensures !IsHuge(Round(size), old(delta)) ==>
                var lo := if old(StaysInBlock(Round(size))) then old(nextUnit) else 0;
                && delta == old(UnitAfter(Round(size)))
                && lo < nextUnit && Takes(nextUnit - lo, Round(size), delta)
      ensures Within(old(heap.blocks), heap.blocks, old(Mine()), Mine())
    {
      hide OnlyAdds, BlockInv, AllRounded, Within, Chosen, HeaderInside, Takes;
      RoundIs(size);
      var rounded := Round(size);
      if nextUnit < BLOCK_UNITS && delta >= HEADER_SIZE { UnitFits(nextUnit, delta); }
      if IsHuge(rounded, delta) {
        h := AllocateHuge(rounded);
      } else {
        var retries;
        h, retries := AllocateNormal(rounded);
      }
    }

    // Whether a request goes to the current block, or discards it
    ghost predicate UsesBlock(size: nat)
      reads this
    {
      !IsHuge(size, delta) || hugeCount == K_MAX
    }

    /** A release by any thread, of this pool's blocks or of others: it takes away exactly this
        allocation, and the pool can go on as if nothing had happened. */
    method Free(h: Header) returns (freed: bool)
      requires Valid() && h.block in heap.blocks && h.run in heap.blocks[h.block].live
      modifies heap`blocks
      ensures Valid()
      ensures Live(heap.blocks) == old(Live(heap.blocks)) - {(h.block, h.run)}
      ensures freed ==> h.block !in heap.blocks
      ensures !freed ==> h.block in heap.blocks
    {
      LiveRelease(heap.blocks, h.block, h.run);
      freed := heap.Release(h);
    }
  }

  // allocate(): more than so many units
  predicate IsHuge(size: nat, unit: nat) { size > HUGE_THRESHOLD * unit }

  /** A request gets a block of its own exactly if it needs, with its header of 16 bytes, more
      than eight units; for up to 13 of them in a row. */
  lemma HugeIs(size: nat, unit: nat)
    ensures IsHuge(Round(size), unit) <==> size + 16 > 8 * unit
    ensures K_MAX == 13
  {
    RoundIs(size);
    assert Round(size) % 8 == 0 && 8 * unit % 8 == 0;
  }

  /** The units that are taken are the size divided by the unit, rounded up. */
  lemma TakesIs(units: nat, size: nat, unit: nat)
    requires size > 0 && unit > 0
    ensures Takes(units, size, unit) <==> units == (size + unit - 1) / unit
  {
    var n := (size + unit - 1) / unit;
    assert size + unit - 1 == n * unit + (size + unit - 1) % unit;
    assert n > 0;
    OneMore(n - 1, unit);
    if units < n { Monotone(units, n - 1, unit); }
    if units > n { Monotone(n, units - 1, unit); }
  }

  /** With the default unit of 8 bytes a header is written outside of its block: after 21
      requests for 8 bytes, of three units each, the rest of the block is one unit. */
  method DefaultUnitOverflows(heap: Heap) returns (pool: Pool)
    requires heap.Valid()
    modifies heap
    ensures fresh(pool) && pool.Valid() && !pool.headersInside
  {
    hide OnlyAdds, Within, AllRounded, BlockInv, Chosen;
    pool := new Pool(heap, 8);
    for i := 0 to 21
      invariant pool.heap == heap && pool.Valid() && fresh(pool) && fresh(pool.allocSizes) && fresh(pool.hugeSizes)
      invariant pool.delta == 8 && pool.headersInside
      invariant if i == 0 then pool.nextUnit == BLOCK_UNITS && pool.allocCount == 0 else pool.nextUnit == 3 * i
    {
      assert Round(8) == 24;
      var _ := pool.Alloc(8);
    }
    assert pool.nextUnit == 63 && pool.offset == 504;
    pool.DiscardBlock();
  }

  lemma UnitAtStart(unit: nat)
    requires unit > 0
    ensures HeaderInside(0, unit)
  {
  }

  lemma WithinReleased(
      before: map<nat, Block>, handed: map<nat, Block>, released: map<nat, Block>, mine: set<nat>, id: nat)
    requires Within(before, handed, mine, {}) && id in handed && handed[id].frontier == BLOCK_UNITS
    requires id in mine || id !in before
    requires released == handed - {id} || (id in released && released == handed[id := released[id]])
    requires id in released ==> released[id].frontier == BLOCK_UNITS
    ensures Within(before, released, mine, {})
  {
  }

  lemma RoundedMore(sizes: seq<int>, size: int)
    requires AllRounded(sizes) && IsRounded(size)
    ensures AllRounded(sizes + [size])
  {
  }

  lemma RoundedChosen(sizes: seq<int>)
    requires sizes != [] && AllRounded(sizes)
    ensures IsRounded(Chosen(sizes))
  {
    ChosenIsRecorded(sizes);
  }

  lemma EmptyBlockInv(unit: nat)
    ensures BlockInv(EmptyBlock(unit, true))
  {
    NewBlockInv(unit, true);
  }

  lemma WholeServes(blocks: map<nat, Block>, h: Header, size: nat)
    requires h.block in blocks && h.run in blocks[h.block].live && blocks[h.block].whole
    requires blocks[h.block].unit == size && h.offset == 0
    ensures Serves(blocks, h, size)
  {
  }

  lemma RunBytes(lo: nat, hi: nat, k: nat)
    requires lo <= hi
    ensures hi * k - lo * k == (hi - lo) * k
  {
  }

  lemma OneMore(n: nat, k: nat)
    ensures (n + 1) * k == n * k + k
  {
  }
}
