/** A hash table with linear probing that is never resized and never deletes single items. */
module HashTables {
  import opened Sequences

  // The functors of the table: two equal keys must have equal hash codes
  datatype Functors<!Data, !Key(!new)> = Functors(
    extractKey: Data -> Key,
    equalKey: (Key, Key) -> bool,
    hash: Key -> nat)
  {
    ghost predicate Compatible() { forall k, l :: equalKey(k, l) ==> hash(k) == hash(l) }
  }

  // The slot that is i steps after slot h, cyclically
  function At(h: nat, i: nat, capacity: nat): (p: nat)
    requires h < capacity && i <= capacity
    ensures p < capacity
  {
    if h + i < capacity then h + i else h + i - capacity
  }

  // How many steps slot p is after slot h
  function Distance(h: nat, p: nat, capacity: nat): (i: nat)
    requires h < capacity && p < capacity
    ensures i < capacity && At(h, i, capacity) == p
  {
    if p >= h then p - h else p - h + capacity
  }

  lemma AtIsOneToOne(h: nat, i: nat, j: nat, capacity: nat)
    requires h < capacity && i < capacity && j < capacity
    ensures At(h, i, capacity) == At(h, j, capacity) <==> i == j
    ensures Distance(h, At(h, i, capacity), capacity) == i
  {
  }

  /** Going on cyclically is addition modulo the capacity. */
  lemma AtIsModulo(h: nat, i: nat, capacity: nat)
    requires h < capacity && i <= capacity
    ensures At(h, i, capacity) == (h + i) % capacity
  {
    OneRound(At(h, i, capacity), h + i, capacity);
  }

  lemma OneRound(r: nat, x: nat, capacity: nat)
    requires r < capacity && (x == r || x == r + capacity)
    ensures x % capacity == r
  {
    var q := x / capacity;
    assert x == q * capacity + x % capacity;
    assert q >= 2 ==> q * capacity >= 2 * capacity;
  }

  // A slot holds an item or nothing
  datatype Slot<+Data> = Empty | Full(item: Data)

  function Count<Data>(slots: seq<Slot<Data>>): nat {
    if slots == [] then 0 else Count(slots[..|slots| - 1]) + if slots[|slots| - 1].Full? then 1 else 0
  }

  function Items<Data>(slots: seq<Slot<Data>>): multiset<Data> {
    if slots == [] then multiset{}
    else
      var last := slots[|slots| - 1];
      Items(slots[..|slots| - 1]) + if last.Full? then multiset{last.item} else multiset{}
  }

  lemma {:induction false} FillCounts<Data>(slots: seq<Slot<Data>>, p: nat, d: Data)
    requires p < |slots| && slots[p] == Empty
    ensures Count(slots[p := Full(d)]) == Count(slots) + 1
    ensures Items(slots[p := Full(d)]) == Items(slots) + multiset{d}
    decreases |slots|
  {
    var n := |slots| - 1;
    if p < n {
      assert slots[p := Full(d)][..n] == slots[..n][p := Full(d)];
      FillCounts(slots[..n], p, d);
    } else {
      assert slots[p := Full(d)][..n] == slots[..n];
    }
  }

  lemma {:induction false} FullCounts<Data>(slots: seq<Slot<Data>>)
    ensures Count(slots) <= |slots|
    ensures Count(slots) == |slots| <==> forall p :: 0 <= p < |slots| ==> slots[p].Full?
    decreases |slots|
  {
    if slots != [] {
      FullCounts(slots[..|slots| - 1]);
    }
  }

  lemma SomeEmpty<Data>(slots: seq<Slot<Data>>) returns (p: nat)
    requires Count(slots) < |slots|
    ensures p < |slots| && slots[p] == Empty
  {
    FullCounts(slots);
    p :| 0 <= p < |slots| && !slots[p].Full?;
  }

  lemma {:induction false} EmptyCounts<Data>(slots: seq<Slot<Data>>)
    requires forall p :: 0 <= p < |slots| ==> slots[p] == Empty
    ensures Count(slots) == 0 && Items(slots) == multiset{}
    decreases |slots|
  {
    if slots != [] {
      EmptyCounts(slots[..|slots| - 1]);
    }
  }

  // All slots from h on, for n steps, are full
  ghost predicate FullRun<Data>(slots: seq<Slot<Data>>, h: nat, n: nat)
    requires h < |slots| && n <= |slots|
  {
    forall i :: 0 <= i < n ==> slots[At(h, i, |slots|)].Full?
  }

  function Home<Data, Key(!new)>(f: Functors<Data, Key>, k: Key, capacity: nat): (h: nat)
    requires capacity > 0
    ensures h < capacity
  {
    f.hash(k) % capacity
  }

  ghost predicate ProbedAt<Data, Key(!new)>(f: Functors<Data, Key>, slots: seq<Slot<Data>>, p: nat)
    requires p < |slots|
  {
    slots[p].Full? ==>
      var h := Home(f, f.extractKey(slots[p].item), |slots|);
      FullRun(slots, h, Distance(h, p, |slots|))
  }

  /** The probing invariant: every item is reached from its home slot through full slots. */
  ghost predicate Probed<Data, Key(!new)>(f: Functors<Data, Key>, slots: seq<Slot<Data>>) {
    forall p :: 0 <= p < |slots| ==> ProbedAt(f, slots, p)
  }

  lemma FillKeepsProbed<Data, Key(!new)>(f: Functors<Data, Key>, slots: seq<Slot<Data>>, i: nat, d: Data)
    requires slots != [] && Probed(f, slots) && i < |slots|
    requires var h := Home(f, f.extractKey(d), |slots|);
             FullRun(slots, h, i) && slots[At(h, i, |slots|)] == Empty
    ensures var h := Home(f, f.extractKey(d), |slots|);
            Probed(f, slots[At(h, i, |slots|) := Full(d)])
  {
    var h := Home(f, f.extractKey(d), |slots|);
    var p := At(h, i, |slots|);
    var slots' := slots[p := Full(d)];
    forall q | 0 <= q < |slots'| ensures ProbedAt(f, slots', q) {
      if q == p {
        AtIsOneToOne(h, i, i, |slots|);
      } else {
        assert ProbedAt(f, slots, q);
      }
    }
  }

  // ---------------------------------------------------------------------------
  // Iterating over the items of one key
  // ---------------------------------------------------------------------------

  predicate Matches<Data, Key(!new)>(f: Functors<Data, Key>, slot: Slot<Data>, k: Key) {
    slot.Full? && f.equalKey(k, f.extractKey(slot.item))
  }

  // The slots that the iterator stops at from step i on: it ends at an empty slot, or when it
  // is back at its start
  function Scan<Data, Key(!new)>(f: Functors<Data, Key>, slots: seq<Slot<Data>>, k: Key, h: nat, i: nat): seq<nat>
    requires h < |slots| && i <= |slots|
    decreases |slots| - i
  {
    if i == |slots| || slots[At(h, i, |slots|)] == Empty then []
    else (if Matches(f, slots[At(h, i, |slots|)], k) then [At(h, i, |slots|)] else [])
         + Scan(f, slots, k, h, i + 1)
  }

  lemma ScanStep<Data, Key(!new)>(f: Functors<Data, Key>, slots: seq<Slot<Data>>, k: Key, h: nat, i: nat)
    requires h < |slots| && i <= |slots|
    ensures var p := At(h, i, |slots|);
            Scan(f, slots, k, h, i) ==
              if i == |slots| || slots[p] == Empty then []
              else if Matches(f, slots[p], k) then [p] + Scan(f, slots, k, h, i + 1)
              else Scan(f, slots, k, h, i + 1)
  {
  }

  lemma {:induction false} ScanIs<Data, Key(!new)>(
      f: Functors<Data, Key>, slots: seq<Slot<Data>>, k: Key, h: nat, i: nat, p: nat)
    requires h < |slots| && i <= |slots| && p < |slots|
    ensures p in Scan(f, slots, k, h, i) <==>
              && i <= Distance(h, p, |slots|) && Matches(f, slots[p], k)
              && forall j :: i <= j < Distance(h, p, |slots|) ==> slots[At(h, j, |slots|)].Full?
    ensures forall m :: 0 <= m < |Scan(f, slots, k, h, i)| ==> Scan(f, slots, k, h, i)[m] < |slots|
    decreases |slots| - i
  {
    if i < |slots| && slots[At(h, i, |slots|)].Full? {
      ScanIs(f, slots, k, h, i + 1, p);
      AtIsOneToOne(h, i, Distance(h, p, |slots|), |slots|);
      var rest := Scan(f, slots, k, h, i + 1);
      assert forall m :: 0 <= m < |rest| ==> rest[m] < |slots|;
    }
  }

  lemma {:induction false} ScanNoDup<Data, Key(!new)>(
      f: Functors<Data, Key>, slots: seq<Slot<Data>>, k: Key, h: nat, i: nat)
    requires h < |slots| && i <= |slots|
    ensures NoDup(Scan(f, slots, k, h, i))
    decreases |slots| - i
  {
    if i < |slots| && slots[At(h, i, |slots|)].Full? {
      ScanNoDup(f, slots, k, h, i + 1);
      AtIsOneToOne(h, i, i, |slots|);
      ScanIs(f, slots, k, h, i + 1, At(h, i, |slots|));
    }
  }

  /** The iteration over a key stops at exactly the slots that hold an item with this key,
      once each, also in a full table. */
  lemma ScanIsExact<Data, Key(!new)>(f: Functors<Data, Key>, slots: seq<Slot<Data>>, k: Key)
    requires slots != [] && Probed(f, slots) && f.Compatible()
    ensures var found := Scan(f, slots, k, Home(f, k, |slots|), 0);
            && NoDup(found)
            && forall p :: p in found <==> 0 <= p < |slots| && Matches(f, slots[p], k)
  {
    var h := Home(f, k, |slots|);
    var found := Scan(f, slots, k, h, 0);
    ScanNoDup(f, slots, k, h, 0);
    ScanIs(f, slots, k, h, 0, h);
    forall p ensures p in found <==> 0 <= p < |slots| && Matches(f, slots[p], k) {
      if 0 <= p < |slots| {
        ScanIs(f, slots, k, h, 0, p);
        assert ProbedAt(f, slots, p);
      }
    }
  }

  ghost predicate AllFull<Data>(slots: seq<Slot<Data>>, positions: seq<nat>) {
    forall i :: 0 <= i < |positions| ==> positions[i] < |slots| && slots[positions[i]].Full?
  }

  ghost function ItemsAt<Data>(slots: seq<Slot<Data>>, positions: seq<nat>): (items: seq<Data>)
    requires AllFull(slots, positions)
    ensures |items| == |positions|
  {
    seq(|positions|, i requires 0 <= i < |positions| => slots[positions[i]].item)
  }

  ghost predicate AreMatches<Data, Key(!new)>(
      f: Functors<Data, Key>, slots: seq<Slot<Data>>, k: Key, positions: seq<nat>)
  {
    NoDup(positions) && forall p: nat :: p in positions <==> p < |slots| && Matches(f, slots[p], k)
  }

  /** So it yields every inserted item with this key, as often as it was inserted. */
  lemma {:induction false} MatchesAreItems<Data, Key(!new)>(
      f: Functors<Data, Key>, slots: seq<Slot<Data>>, k: Key, positions: seq<nat>, d: Data)
    requires AreMatches(f, slots, k, positions)
    requires AllFull(slots, positions)
    ensures multiset(ItemsAt(slots, positions))[d] == if f.equalKey(k, f.extractKey(d)) then Items(slots)[d] else 0
    decreases |slots|
  {
    hide AreMatches, Matches;
    if slots == [] {
      NoneMatch(f, slots, k, positions);
    } else {
      var n := |slots| - 1;
      if Matches(f, slots[n], k) {
        var i := LastMatch(f, slots, k, positions);
        var rest := WithoutAt(positions, i);
        ItemsTakenOut(slots, positions, i);
        MatchesAreItems(f, slots[..n], k, rest, d);
        MatchIs(f, slots[n], k);
      } else {
        OthersMatch(f, slots, k, positions);
        MatchesAreItems(f, slots[..n], k, positions, d);
        assert ItemsAt(slots[..n], positions) == ItemsAt(slots, positions);
        MatchIs(f, slots[n], k);
      }
    }
  }

  lemma NoneMatch<Data, Key(!new)>(f: Functors<Data, Key>, slots: seq<Slot<Data>>, k: Key, positions: seq<nat>)
    requires slots == [] && AreMatches(f, slots, k, positions)
    ensures positions == []
  {
    HasHead(positions);
  }

  lemma HasHead(xs: seq<nat>)
    ensures xs == [] || xs[0] in xs
  {
  }

  lemma MatchIs<Data, Key(!new)>(f: Functors<Data, Key>, slot: Slot<Data>, k: Key)
    ensures Matches(f, slot, k) <==> slot.Full? && f.equalKey(k, f.extractKey(slot.item))
  {
  }

  lemma LastMatch<Data, Key(!new)>(
      f: Functors<Data, Key>, slots: seq<Slot<Data>>, k: Key, positions: seq<nat>) returns (i: nat)
    requires slots != [] && AreMatches(f, slots, k, positions) && Matches(f, slots[|slots| - 1], k)
    ensures i < |positions| && positions[i] == |slots| - 1
    ensures var rest := WithoutAt(positions, i);
            && AreMatches(f, slots[..|slots| - 1], k, rest)
            && AllFull(slots[..|slots| - 1], rest)
  {
    i := Find(positions, |slots| - 1);
    TakeOut(positions, i);
    var rest := WithoutAt(positions, i);
    forall m | 0 <= m < |rest| ensures rest[m] < |slots| - 1 && slots[rest[m]].Full? {
      assert rest[m] in rest;
      assert rest[m] in positions;
    }
  }

  lemma OthersMatch<Data, Key(!new)>(f: Functors<Data, Key>, slots: seq<Slot<Data>>, k: Key, positions: seq<nat>)
    requires slots != [] && AreMatches(f, slots, k, positions) && !Matches(f, slots[|slots| - 1], k)
    ensures AreMatches(f, slots[..|slots| - 1], k, positions)
    ensures AllFull(slots[..|slots| - 1], positions)
  {
    forall m | 0 <= m < |positions| ensures positions[m] < |slots| - 1 && slots[positions[m]].Full? {
      assert positions[m] in positions;
    }
  }

  lemma ItemsTakenOut<Data>(slots: seq<Slot<Data>>, positions: seq<nat>, i: nat)
    requires slots != [] && i < |positions| && positions[i] == |slots| - 1
    requires AllFull(slots, positions)
    requires AllFull(slots[..|slots| - 1], WithoutAt(positions, i))
    ensures var rest := WithoutAt(positions, i);
            multiset(ItemsAt(slots, positions)) ==
              multiset(ItemsAt(slots[..|slots| - 1], rest)) + multiset{slots[|slots| - 1].item}
  {
    var rest := WithoutAt(positions, i);
    var all := ItemsAt(slots, positions);
    assert ItemsAt(slots[..|slots| - 1], rest) == all[..i] + all[i + 1..];
    assert all == all[..i] + ([all[i]] + all[i + 1..]);
  }

  lemma Find(xs: seq<nat>, x: nat) returns (i: nat)
    requires x in xs
    ensures i < |xs| && xs[i] == x
  {
    i :| 0 <= i < |xs| && xs[i] == x;
  }

  lemma TakeOut(xs: seq<nat>, i: nat)
    requires i < |xs| && NoDup(xs)
    ensures NoDup(WithoutAt(xs, i))
    ensures forall x :: x in WithoutAt(xs, i) <==> x in xs && x != xs[i]
  {
    var rest := WithoutAt(xs, i);
    assert forall j :: 0 <= j < |rest| ==> rest[j] == xs[if j < i then j else j + 1];
    forall x ensures x in rest <==> x in xs && x != xs[i] {
      InWithout(xs, i, x);
    }
  }

  // ---------------------------------------------------------------------------
  // The table
  // ---------------------------------------------------------------------------

  // The iterator: at the end, or at a slot with the slot where it started
  datatype Iterator = End | Cursor(start: nat, curr: nat)

  class HashTable<Data(0), Key(!new)> {
    const capacity: nat
    const f: Functors<Data, Key>
    const data: array<Data>
    const exists_: array<bool>
    var size: nat

    ghost function Slots(): (slots: seq<Slot<Data>>)
      requires data.Length == exists_.Length == capacity
      reads data, exists_
      ensures |slots| == capacity
    {
      seq(capacity, p requires 0 <= p < capacity reads data, exists_ => if exists_[p] then Full(data[p]) else Empty)
    }

    ghost predicate Valid()
      reads this, data, exists_
    {
      && capacity > 0 && data.Length == exists_.Length == capacity && (data as object) != exists_
      && size == Count(Slots()) && Probed(f, Slots()) && f.Compatible()
    }

    constructor (capacity: nat, f: Functors<Data, Key>)
      requires capacity > 0 && f.Compatible()
      ensures Valid() && this.capacity == capacity && this.f == f && size == 0 && Items(Slots()) == multiset{}
      ensures fresh(data) && fresh(exists_)
    {
      this.capacity, this.f, size := capacity, f, 0;
      data := new Data[capacity];
      exists_ := new bool[capacity](_ => false);
      new;
      EmptyCounts(Slots());
    }

    method Clear()
      requires Valid()
      modifies this`size, exists_
      ensures Valid() && size == 0 && Items(Slots()) == multiset{}
    {
      for i := 0 to capacity
        invariant forall p :: 0 <= p < i ==> !exists_[p]
      {
        exists_[i] := false;
      }
      size := 0;
      EmptyCounts(Slots());
    }

    // Both probing loops: from the home slot to the end, then from the beginning
    method Probe(home: nat) returns (pos: nat, ghost steps: nat)
      requires Valid() && size < capacity && home < capacity
      ensures pos < capacity && !exists_[pos]
      ensures steps < capacity && pos == At(home, steps, capacity) && FullRun(Slots(), home, steps)
    {
      ghost var empty := SomeEmpty(Slots());
      pos := home;
      while pos < capacity && exists_[pos]
        invariant home <= pos <= capacity
        invariant forall q :: home <= q < pos ==> exists_[q]
      {
        pos := pos + 1;
      }
      if pos == capacity {
        pos := 0;
        while pos < capacity && exists_[pos]
          invariant pos <= capacity
          invariant forall q :: 0 <= q < pos ==> exists_[q]
        {
          pos := pos + 1;
        }
        // there is space, so an empty slot was found
        assert pos <= empty;
      }
      steps := Distance(home, pos, capacity);
    }

    /** insert_noresize(): the item goes to the first empty slot at or after its home, so that
        every item stays reachable, and nothing else changes. */
    method InsertNoResize(d: Data) returns (ghost pos: nat)
      requires Valid() && size < capacity
      modifies this`size, data, exists_
      ensures Valid() && size == old(size) + 1
      ensures pos < capacity && old(Slots())[pos] == Empty && Slots() == old(Slots())[pos := Full(d)]
      ensures var home := f.hash(f.extractKey(d)) % capacity;
              FullRun(old(Slots()), home, Distance(home, pos, capacity))
      ensures Items(Slots()) == old(Items(Slots())) + multiset{d}
    {
      hide FullRun, Probed, Count, Items;
      var home := Home(f, f.extractKey(d), capacity);
      var slot;
      ghost var steps;
      slot, steps := Probe(home);
      pos := slot;
      ghost var before := Slots();
      AtIsOneToOne(home, steps, 0, capacity);
      FillKeepsProbed(f, before, steps, d);
      FillCounts(before, pos, d);
      data[slot] := d;
      exists_[slot] := true;
      size := size + 1;
      assert Slots() == before[pos := Full(d)];
    }

    // The slots at which an iterator has still to stop
    ghost function Rest(it: Iterator, k: Key): seq<nat>
      requires capacity > 0 && data.Length == exists_.Length == capacity
      requires it.Cursor? ==> it.start < capacity && it.curr < capacity
      reads data, exists_
    {
      match it
      case End => []
      case Cursor(start, curr) => [curr] + Scan(f, Slots(), k, start, Distance(start, curr, capacity) + 1)
    }

    // operator++: advance to the next slot that matches, or to the end
    method Advance(it: Iterator, k: Key) returns (it': Iterator)
      requires Valid() && it.Cursor? && it.start < capacity && it.curr < capacity
      ensures it'.Cursor? ==> it'.start == it.start && it'.curr < capacity && Matches(f, Slots()[it'.curr], k)
      ensures Rest(it', k) == Scan(f, Slots(), k, it.start, Distance(it.start, it.curr, capacity) + 1)
    {
      hide Probed, Count, Scan, Matches;
      var curr := it.curr;
      ghost var i := Distance(it.start, it.curr, capacity);
      ghost var slots: seq<Slot<Data>> := Slots();
      ghost var rest := Scan(f, slots, k, it.start, i + 1);
      while true
        invariant curr < capacity && i < capacity && curr == At(it.start, i, capacity)
        invariant Scan(f, slots, k, it.start, i + 1) == rest
        decreases capacity - i
      {
        ScanStep(f, slots, k, it.start, i + 1);
        curr := curr + 1;
        if curr == capacity {
          curr := 0;
        }
        i := i + 1;
        if !exists_[curr] {
          return End;
        }
        if curr == it.start {
          // wrapped to the beginning of the table
          return End;
        }
        MatchIs(f, slots[curr], k);
        if f.equalKey(k, f.extractKey(data[curr])) {
          return Cursor(it.start, curr);
        }
      }
    }

    // The first iterator of equal_range()
    method Begin(k: Key) returns (it: Iterator)
      requires Valid()
      ensures it.Cursor? ==>
                && it.start == f.hash(k) % capacity && it.curr < capacity
                && exists_[it.curr] && f.equalKey(k, f.extractKey(data[it.curr]))
      ensures Rest(it, k) == Scan(f, Slots(), k, f.hash(k) % capacity, 0)
    {
      var start := Home(f, k, capacity);
      if !exists_[start] {
        return End;
      }
      if f.equalKey(k, f.extractKey(data[start])) {
        return Cursor(start, start);
      }
      it := Advance(Cursor(start, start), k);
    }

    /** Iterating over equal_range(k) terminates and yields exactly the inserted items with
        this key, each as often as it was inserted, even when the table is full. */
    method EqualRange(k: Key) returns (found: seq<Data>)
      requires Valid()
      ensures forall d :: multiset(found)[d] == if f.equalKey(k, f.extractKey(d)) then Items(Slots())[d] else 0
    {
      hide Scan, Matches, Items, Probed, Count, NoDup, AllFull, ItemsAt;
      found := [];
      ghost var slots: seq<Slot<Data>> := Slots();
      ghost var all := Scan(f, slots, k, Home(f, k, capacity), 0);
      ScanIsExact(f, slots, k);
      ScanInside(f, slots, k, all);
      ghost var done: nat := 0;
      NoItems(slots, all[..0]);
      var it := Begin(k);
      while it != End
        invariant it.Cursor? ==> it.start == Home(f, k, capacity) && it.curr < capacity
        invariant done <= |all| && Rest(it, k) == all[done..]
        invariant done <= |all| && AllFull(slots, all[..done]) && found == ItemsAt(slots, all[..done])
        decreases |all| - done
      {
        RestHead(it.curr, Scan(f, slots, k, it.start, Distance(it.start, it.curr, capacity) + 1), all, done);
        ItemsMore(slots, all, done);
        found := found + [data[it.curr]];
        it := Advance(it, k);
        done := done + 1;
      }
      assert all[..done] == all;
      YieldsMatches(f, slots, k, all);
    }

    /** contains() looks again from the home slot, not from the beginning, when it has come to
        the end of the table: it finds exactly the copies that did not wrap around. */
    method Contains(d: Data, equalData: (Data, Data) -> bool) returns (found: bool)
      requires Valid()
      requires forall x, y :: equalData(x, y) ==> f.equalKey(f.extractKey(y), f.extractKey(x))
      ensures found <==> exists p :: f.hash(f.extractKey(d)) % capacity <= p < capacity
                            && Slots()[p].Full? && equalData(Slots()[p].item, d)
    {
      var home := Home(f, f.extractKey(d), capacity);
      var pos := home;
      while pos < capacity && exists_[pos] && !equalData(data[pos], d)
        invariant home <= pos <= capacity
        invariant forall q :: home <= q < pos ==> exists_[q] && !equalData(data[q], d)
      {
        pos := pos + 1;
      }
      if pos == capacity {
        pos := home;
        while pos < capacity && exists_[pos] && !equalData(data[pos], d)
          invariant home <= pos <= capacity
          invariant forall q :: home <= q < pos ==> exists_[q] && !equalData(data[q], d)
        {
          pos := pos + 1;
        }
      }
      if pos == capacity {
        return false;
      }
      if !exists_[pos] {
        forall p | home <= p < capacity && Slots()[p].Full? ensures equalData(Slots()[p].item, d) ==> p < pos {
          if equalData(Slots()[p].item, d) {
            BeforeEmpty(f, Slots(), pos, p);
          }
        }
        return false;
      }
      assert Slots()[pos].Full? && equalData(Slots()[pos].item, d);
      found := true;
    }
  }

  lemma NoItems<Data>(slots: seq<Slot<Data>>, positions: seq<nat>)
    requires positions == []
    ensures AllFull(slots, positions) && ItemsAt(slots, positions) == []
  {
  }

  lemma ItemsMore<Data>(slots: seq<Slot<Data>>, positions: seq<nat>, n: nat)
    requires AllFull(slots, positions) && n < |positions| && AllFull(slots, positions[..n])
    ensures positions[n] < |slots| && slots[positions[n]].Full? && AllFull(slots, positions[..n + 1])
    ensures ItemsAt(slots, positions[..n + 1]) == ItemsAt(slots, positions[..n]) + [slots[positions[n]].item]
  {
  }

  lemma RestHead(curr: nat, rest: seq<nat>, all: seq<nat>, done: nat)
    requires done <= |all| && all[done..] == [curr] + rest
    ensures done < |all| && all[done] == curr && all[done + 1..] == rest
  {
    assert all[done..][0] == curr && all[done..][1..] == rest;
  }

  lemma YieldsMatches<Data, Key(!new)>(f: Functors<Data, Key>, slots: seq<Slot<Data>>, k: Key, all: seq<nat>)
    requires slots != [] && Probed(f, slots) && f.Compatible() && all == Scan(f, slots, k, Home(f, k, |slots|), 0)
    requires AllFull(slots, all)
    ensures forall d ::
              multiset(ItemsAt(slots, all))[d] == if f.equalKey(k, f.extractKey(d)) then Items(slots)[d] else 0
  {
    ScanIsExact(f, slots, k);
    hide Items, Scan, Matches, Probed;
    assert AreMatches(f, slots, k, all);
    forall d ensures multiset(ItemsAt(slots, all))[d] == if f.equalKey(k, f.extractKey(d)) then Items(slots)[d] else 0 {
      MatchesAreItems(f, slots, k, all, d);
    }
  }

  // An item that has not wrapped around lies before the first empty slot after its home
  lemma BeforeEmpty<Data, Key(!new)>(f: Functors<Data, Key>, slots: seq<Slot<Data>>, pos: nat, p: nat)
    requires Probed(f, slots) && pos < |slots| && p < |slots| && slots[pos] == Empty && slots[p].Full?
    requires Home(f, f.extractKey(slots[p].item), |slots|) <= pos
    requires Home(f, f.extractKey(slots[p].item), |slots|) <= p
    ensures p < pos
  {
    var h := Home(f, f.extractKey(slots[p].item), |slots|);
    assert ProbedAt(f, slots, p);
    assert FullRun(slots, h, Distance(h, p, |slots|));
    assert At(h, pos - h, |slots|) == pos;
  }

  lemma ScanInside<Data, Key(!new)>(f: Functors<Data, Key>, slots: seq<Slot<Data>>, k: Key, found: seq<nat>)
    requires slots != [] && forall p :: p in found <==> 0 <= p < |slots| && Matches(f, slots[p], k)
    ensures AllFull(slots, found)
  {
    forall i | 0 <= i < |found| ensures found[i] < |slots| && slots[found[i]].Full? {
      assert found[i] in found;
    }
  }

  // A slot with a copy of an item
  ghost predicate IsCopy<Data(!new)>(slot: Slot<Data>, d: Data, equalData: (Data, Data) -> bool) {
    slot.Full? && equalData(slot.item, d)
  }

  // What contains() finds, and what it should find
  ghost predicate CopyFrom<Data(!new)>(slots: seq<Slot<Data>>, first: nat, d: Data, equalData: (Data, Data) -> bool) {
    exists p :: first <= p < |slots| && IsCopy(slots[p], d, equalData)
  }

  /** When contains() is right: always, if some slot from the home slot to the end is empty; and
      in general exactly unless every slot from there on is taken by something else and a copy
      lies before the home slot. */
  lemma ContainsIsRight<Data(!new), Key(!new)>(
      f: Functors<Data, Key>, slots: seq<Slot<Data>>, d: Data, equalData: (Data, Data) -> bool)
    requires slots != [] && Probed(f, slots) && f.Compatible()
    requires forall x, y :: equalData(x, y) ==> f.equalKey(f.extractKey(y), f.extractKey(x))
    ensures var home := Home(f, f.extractKey(d), |slots|);
            && ((exists p :: home <= p < |slots| && slots[p] == Empty) ==>
                  (CopyFrom(slots, home, d, equalData) <==> CopyFrom(slots, 0, d, equalData)))
            && ((CopyFrom(slots, home, d, equalData) <==> CopyFrom(slots, 0, d, equalData)) <==>
                  !((forall p :: home <= p < |slots| ==> slots[p].Full? && !equalData(slots[p].item, d))
                    && exists p :: 0 <= p < home && IsCopy(slots[p], d, equalData)))
  {
    var home := Home(f, f.extractKey(d), |slots|);
    forall p, q | 0 <= p < home && IsCopy(slots[p], d, equalData) && home <= q < |slots| ensures slots[q].Full? {
      assert f.equalKey(f.extractKey(d), f.extractKey(slots[p].item));
      WrappedPast(f, slots, p, q, home);
    }
    if p :| 0 <= p < home && IsCopy(slots[p], d, equalData) {
      assert CopyFrom(slots, 0, d, equalData);
    }
    if CopyFrom(slots, home, d, equalData) {
      var p :| home <= p < |slots| && IsCopy(slots[p], d, equalData);
      assert CopyFrom(slots, 0, d, equalData);
    }
  }

  // An item that lies before its home slot has found everything from there on taken
  lemma WrappedPast<Data, Key(!new)>(f: Functors<Data, Key>, slots: seq<Slot<Data>>, p: nat, q: nat, home: nat)
    requires Probed(f, slots) && p < home <= q < |slots| && slots[p].Full?
    requires Home(f, f.extractKey(slots[p].item), |slots|) == home
    ensures slots[q].Full?
  {
    assert ProbedAt(f, slots, p);
    assert FullRun(slots, home, Distance(home, p, |slots|));
    assert At(home, q - home, |slots|) == q;
  }

  /** A table in which contains() misses an item: its home is the last slot, which was taken,
      so it went to the first one. */
  method ContainsMisses() returns (table: HashTable<int, int>, found: bool)
    ensures fresh(table) && table.Valid() && Items(table.Slots()) == multiset{5, 7} && !found
  {
    hide Items, Count, Probed;
    var f := Functors((d: int) => d, (k: int, l: int) => k == l, (k: int) => 1);
    table := new HashTable<int, int>(2, f);
    ghost var empty := table.Slots();
    NoFullSlot(empty);
    ghost var p5 := table.InsertNoResize(5);
    ghost var one := table.Slots();
    assert !empty[At(1, 0, 2)].Full? && p5 == 1;
    ghost var p7 := table.InsertNoResize(7);
    assert p7 == 0 && table.Slots()[1] == Full(5);
    found := table.Contains(7, (x, y) => x == y);
  }

  lemma {:induction false} NoFullSlot<Data>(slots: seq<Slot<Data>>)
    requires Items(slots) == multiset{}
    ensures forall p :: 0 <= p < |slots| ==> slots[p] == Empty
    decreases |slots|
  {
    if slots != [] {
      NoFullSlot(slots[..|slots| - 1]);
    }
  }
}
