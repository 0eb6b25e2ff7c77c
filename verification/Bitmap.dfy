/** The 64-bit words of the block allocator, read as sets of units: the word operations of
    release(), discard_block() and allocate_normal() are the set operations of `PoolAllocs`. */
module Bitmaps {
  import opened PoolAllocs

  type Index = j: bv7 | j < 64 witness 0

  predicate Bit(b: bv64, j: Index) { (b >> j) & 1 == 1 }

  // The single bit of a unit; the marching bit `_next_unit`
  function UnitBit(n: Index): bv64 { (1 as bv64) << n }

  ghost predicate Has(units: set<nat>, j: Index) { j as nat in units }

  ghost predicate Represents(b: bv64, units: set<nat>) {
    forall j: Index :: Bit(b, j) <==> Has(units, j)
  }

  // The marching bit falls out of the word after the last unit
  lemma March(n: Index)
    ensures UnitBit(n) << 1 == if n == 63 then 0 else UnitBit(n + 1)
    ensures UnitBit(n) != 0
  {
  }

  lemma AndNotBit(b: bv64, r: bv64, j: Index)
    ensures Bit(b & !r, j) <==> Bit(b, j) && !Bit(r, j)
  {
  }

  /** `_bitmap & ~_range` takes the units of the range out of the bitmap. */
  lemma ReleaseWord(b: bv64, r: bv64, units: set<nat>, run: set<nat>)
    requires Represents(b, units) && Represents(r, run)
    ensures Represents(b & !r, units - run)
  {
    var b', rest := b & !r, units - run;
    forall j: Index ensures Bit(b', j) <==> Has(rest, j) {
      AndNotBit(b, r, j);
    }
  }

  lemma OrBit(r: bv64, n: Index, j: Index)
    ensures Bit(r | UnitBit(n), j) <==> Bit(r, j) || j == n
  {
  }

  lemma SameIndex(n: Index, j: Index)
    ensures n as nat == j as nat <==> n == j
    ensures n as nat <= j as nat <==> n <= j
  {
  }

  /** `_range |= _next_unit` adds one unit to the range. */
  lemma CarveWord(r: bv64, n: Index, run: set<nat>)
    requires Represents(r, run)
    ensures Represents(r | UnitBit(n), run + {n as nat})
  {
    var b, run' := r | UnitBit(n), run + {n as nat};
    forall j: Index ensures Bit(b, j) <==> Has(run', j) {
      OrBit(r, n, j);
      SameIndex(n, j);
    }
  }

  lemma RestBit(n: Index, j: Index)
    ensures Bit(!(UnitBit(n) - 1), j) <==> n <= j
  {
  }

  lemma RestHas(n: Index, j: Index)
    ensures Has(Units(Run(n as nat, BLOCK_UNITS)), j) <==> n <= j
  {
    SameIndex(n, j);
    assert Inside(Run(n as nat, BLOCK_UNITS), j as nat) <==> n as nat <= j as nat;
  }

  /** `~(_next_unit - 1)` is everything that has not been handed out. */
  lemma RestWord(n: Index)
    ensures Represents(!(UnitBit(n) - 1), Units(Run(n as nat, BLOCK_UNITS)))
  {
    hide Bit, UnitBit, Has;
    var b, rest := !(UnitBit(n) - 1), Units(Run(n as nat, BLOCK_UNITS));
    forall j: Index ensures Bit(b, j) <==> Has(rest, j) {
      RestBit(n, j);
      RestHas(n, j);
    }
  }

  ghost predicate LowClear(b: bv64, n: Index) { b & (UnitBit(n) - 1) == 0 }

  // If the lowest bits are all clear, either the next one is set or one more is clear
  lemma OneMoreClear(b: bv64, n: Index)
    requires LowClear(b, n) && !Bit(b, n)
    ensures n < 63 ==> LowClear(b, n + 1)
    ensures n == 63 ==> b == 0
  {
  }

  lemma NextIndex(n: Index)
    requires n < 63
    ensures (n + 1) as nat == n as nat + 1
  {
  }

  lemma {:induction false} SomeBit(b: bv64, n: Index, left: nat) returns (j: Index)
    requires b != 0 && LowClear(b, n) && n as nat + left == 63
    ensures Bit(b, j)
    decreases left
  {
    hide LowClear, Bit;
    if Bit(b, n) {
      j := n;
    } else {
      OneMoreClear(b, n);
      NextIndex(n);
      j := SomeBit(b, n + 1, left - 1);
    }
  }

  lemma NothingBelow(b: bv64)
    ensures LowClear(b, 0)
  {
  }

  /** `!result` says that the bitmap is empty. */
  lemma EmptyWord(b: bv64, units: set<nat>)
    requires Represents(b, units) && forall i :: i in units ==> i < BLOCK_UNITS
    ensures b == 0 <==> forall j: Index :: !Has(units, j)
  {
    hide LowClear;
    if b != 0 {
      NothingBelow(b);
      var j := SomeBit(b, 0, 63);
    }
  }
}
