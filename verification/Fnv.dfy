/** The FNV-1a hash: the loop that is unrolled eight times and entered in the middle computes
    the same as the plain loop over the octets. */
module Fnv {

  // (uint32_t) of a signed char
  function Widen(octet: bv8): bv32 {
    if octet < 0x80 then octet as bv32 else 0xFFFFFF00 | octet as bv32
  }

  // Multiplication by the FNV prime 0x01000193, with shifts and additions
  function TimesPrime(h: bv32): bv32 { h + ((h << 1) + (h << 4) + (h << 7) + (h << 8) + (h << 24)) }

  function Mix(octet: bv8, hval: bv32): bv32 { TimesPrime(hval ^ Widen(octet)) }

  // The reference loop
  function Hash(octets: seq<bv8>, hval: bv32): bv32
    decreases |octets|
  {
    if octets == [] then hval else Hash(octets[1..], Mix(octets[0], hval))
  }

  // FNV-1a as its authors state it, the last octet outermost: exclusive or, then multiply by
  // the prime.  The octet is a signed char, so its sign fills the upper bits
  function Fnv1a(octets: seq<bv8>, hval: bv32): bv32 {
    if octets == [] then hval
    else
      var last := |octets| - 1;
      ByPrime(Fnv1a(octets[..last], hval) ^ SignExtended(octets[last]))
  }

  function ByPrime(h: bv32): bv32 { h * 0x01000193 }

  function SignExtended(octet: bv8): bv32 { (octet as bv32) + if octet & 0x80 == 0 then 0 else 0xFFFFFF00 }

  lemma Shift1(h: bv32) ensures h << 1 == h * 0x2 {}

  lemma Shift4(h: bv32) ensures h << 4 == h * 0x10 {}

  lemma Shift7(h: bv32) ensures h << 7 == h * 0x80 {}

  lemma Shift8(h: bv32) ensures h << 8 == h * 0x100 {}

  lemma Shift24(h: bv32) ensures h << 24 == h * 0x1000000 {}

  lemma Digits(h: bv32)
    ensures h + (h * 0x2 + h * 0x10 + h * 0x80 + h * 0x100 + h * 0x1000000) == h * 0x01000193
  {
  }

  /** The shifts and additions multiply by the FNV prime modulo 2^32. */
  lemma ShiftsMultiply(h: bv32)
    ensures TimesPrime(h) == h * 0x01000193
  {
    Shift1(h);
    Shift4(h);
    Shift7(h);
    Shift8(h);
    Shift24(h);
    Digits(h);
  }

  lemma WidenIs(octet: bv8)
    ensures Widen(octet) == SignExtended(octet)
  {
  }

  /** One step of the loop is exclusive or and then multiplication by the prime. */
  lemma MixIs(octet: bv8, hval: bv32)
    ensures Mix(octet, hval) == ByPrime(hval ^ SignExtended(octet))
  {
    WidenIs(octet);
    PrimeIs(hval ^ Widen(octet));
    hide TimesPrime, Widen, ByPrime, SignExtended;
  }

  lemma PrimeIs(h: bv32)
    ensures TimesPrime(h) == ByPrime(h)
  {
    hide TimesPrime;
    ShiftsMultiply(h);
  }

  /** Hashing a concatenation is hashing the second part from the hash of the first. */
  lemma {:induction false} HashConcat(x: seq<bv8>, y: seq<bv8>, hval: bv32)
    ensures Hash(x + y, hval) == Hash(y, Hash(x, hval))
    decreases |x|
  {
    hide Mix;
    if x == [] {
      assert x + y == y;
    } else {
      assert (x + y)[0] == x[0] && (x + y)[1..] == x[1..] + y;
      HashConcat(x[1..], y, Mix(x[0], hval));
    }
  }

  lemma HashOne(octet: bv8, hval: bv32)
    ensures Hash([octet], hval) == Mix(octet, hval)
  {
    hide Mix;
    assert [octet][1..] == [];
  }

  /** The loop computes FNV-1a. */
  lemma {:induction false} HashIsFnv1a(octets: seq<bv8>, hval: bv32)
    ensures Hash(octets, hval) == Fnv1a(octets, hval)
    decreases |octets|
  {
    hide Mix, Hash, ByPrime, SignExtended;
    if octets == [] {
      HashNone(octets, 0, hval);
      assert octets[0..0] == octets;
    } else {
      var init, octet := octets[..|octets| - 1], octets[|octets| - 1];
      assert octets == init + [octet];
      HashIsFnv1a(init, hval);
      HashConcat(init, [octet], hval);
      HashOne(octet, Hash(init, hval));
      MixIs(octet, Hash(init, hval));
    }
  }

  lemma HashNone(octets: seq<bv8>, i: nat, hval: bv32)
    requires i <= |octets|
    ensures Hash(octets[i..i], hval) == hval
  {
  }

  lemma HashMore(octets: seq<bv8>, i: nat, j: nat, hval: bv32, h: bv32)
    requires i <= j < |octets| && h == Hash(octets[i..j], hval)
    ensures Mix(octets[j], h) == Hash(octets[i..j + 1], hval)
  {
    hide Mix;
    assert octets[i..j + 1] == octets[i..j] + [octets[j]];
    HashConcat(octets[i..j], [octets[j]], hval);
    HashOne(octets[j], h);
  }

  // The plain loop
  method FnvReference(octets: seq<bv8>, hval: bv32) returns (h: bv32)
    ensures h == Hash(octets, hval) == Fnv1a(octets, hval)
  {
    hide Mix;
    HashIsFnv1a(octets, hval);
    h := hval;
    var bp := 0;
    assert octets[..0] == [];
    while bp < |octets|
      invariant 0 <= bp <= |octets| && h == Hash(octets[0..bp], hval)
    {
      HashMore(octets, 0, bp, hval, h);
      h := Mix(octets[bp], h);
      bp := bp + 1;
    }
    assert octets[0..bp] == octets;
  }

  // One pass over the unrolled body, entered at the label of `entry`: case 8 - entry, or
  // case 0 for entry 0
  method Pass(octets: seq<bv8>, bp: int, entry: nat, hval: bv32) returns (h: bv32)
    requires entry < 8 && 0 <= bp + entry && bp + 8 <= |octets|
    ensures h == Hash(octets[bp + entry..bp + 8], hval)
  {
    hide Mix, Hash;
    h := hval;
    ghost var from := bp + entry;
    HashNone(octets, from, hval);
    if entry <= 0 { HashMore(octets, from, bp + 0, hval, h); h := Mix(octets[bp + 0], h); }
    if entry <= 1 { HashMore(octets, from, bp + 1, hval, h); h := Mix(octets[bp + 1], h); }
    if entry <= 2 { HashMore(octets, from, bp + 2, hval, h); h := Mix(octets[bp + 2], h); }
    if entry <= 3 { HashMore(octets, from, bp + 3, hval, h); h := Mix(octets[bp + 3], h); }
    if entry <= 4 { HashMore(octets, from, bp + 4, hval, h); h := Mix(octets[bp + 4], h); }
    if entry <= 5 { HashMore(octets, from, bp + 5, hval, h); h := Mix(octets[bp + 5], h); }
    if entry <= 6 { HashMore(octets, from, bp + 6, hval, h); h := Mix(octets[bp + 6], h); }
    HashMore(octets, from, bp + 7, hval, h);
    h := Mix(octets[bp + 7], h);
  }

  // Where the switch enters the unrolled body, and where its first pass starts and ends
  function Entry(len: nat): nat { if len % 8 == 0 then 0 else 8 - len % 8 }

  function FirstBp(len: nat): int { if len % 8 == 0 then 0 else len % 8 - 8 }

  /** The first pass is made whatever the length is, and stays inside the buffer exactly when
      the buffer is not empty: for length 0 it would read eight octets. */
  lemma FirstPassInside(len: nat)
    ensures 0 <= FirstBp(len) + Entry(len)
    ensures FirstBp(len) + 8 <= len <==> len >= 1
  {
  }

  /** fnv_hash() with its jump into the loop: for every buffer that is not empty and every
      start value it equals the reference, and no read is outside the buffer. */
  method FnvHash(octets: seq<bv8>, hval: bv32) returns (h: bv32)
    requires |octets| >= 1
    ensures h == Hash(octets, hval) == Fnv1a(octets, hval)
  {
    hide Mix, Hash, Fnv1a;
    HashIsFnv1a(octets, hval);
    var len := |octets|;
    var be := len - 8;
    var bp := -(8 - len % 8);
    var entry := 0;
    if len % 8 == 0 {
      bp := bp + 8;          // case 0 enters above the increment
    } else {
      entry := 8 - len % 8;  // the other cases enter below it
    }
    assert entry == Entry(len) && bp == FirstBp(len);
    h := Pass(octets, bp, entry, hval);
    while bp < be
      invariant (be - bp) % 8 == 0 && bp <= be && 0 <= bp + 8
      invariant h == Hash(octets[0..bp + 8], hval)
    {
      bp := bp + 8;
      ghost var before := h;
      h := Pass(octets, bp, 0, h);
      assert octets[0..bp + 8] == octets[0..bp] + octets[bp..bp + 8];
      HashConcat(octets[0..bp], octets[bp..bp + 8], hval);
    }
    assert octets[0..bp + 8] == octets;
  }
}
