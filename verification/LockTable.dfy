/** The locks of one partition: a map from keys to logical locks, acquired and released for
    whole actions at a time, with a counter of missing keys for each action. */
module LockTables {
  import opened LockModes
  import opened LogicalLocks
  import opened Sequences

  // A lock request on one key (KALReq_t)
  datatype KeyRequest<+K, +A> = KeyRequest(key: K, req: Request<A>)

  type Table<!K(==), +A> = map<K, LockState<A>>

  // A key that was never touched has no entry; it behaves like a free lock
  function Lookup<K, A>(t: Table<K, A>, k: K): LockState<A> {
    if k in t then t[k] else Free()
  }

  // KeyLockMap::acquire: update the entry, or insert one with its first owner
  function KeyAcquire<K, A>(t: Table<K, A>, r: KeyRequest<K, A>): (Table<K, A>, bool) {
    var (s, ok) := AcquireStep(Lookup(t, r.key), r.req);
    (t[r.key := s], ok)
  }

  // KeyLockMap::release: the entry must exist
  function KeyRelease<K, A>(t: Table<K, A>, k: K, tid: nat): Table<K, A>
    requires k in t
  {
    t[k := ReleaseStep(t[k], tid)]
  }

  // lock_man_t::acquire_all: every key is asked for, also after a failure; the result also
  // tells how many keys were acquired
  function AcquireAll<K, A>(t: Table<K, A>, reqs: seq<KeyRequest<K, A>>): (r: (Table<K, A>, nat))
    ensures r.1 <= |reqs|
    decreases |reqs|
  {
    if reqs == [] then (t, 0)
    else
      var (t1, ok) := KeyAcquire(t, reqs[0]);
      var (t2, n) := AcquireAll(t1, reqs[1..]);
      (t2, if ok then n + 1 else n)
  }

  // The first half of lock_man_t::release_all: release each key and collect the promoted
  function ReleaseKeys<K, A>(t: Table<K, A>, keys: seq<K>, tid: nat): (r: (Table<K, A>, seq<A>))
    requires forall i :: 0 <= i < |keys| ==> keys[i] in t
    ensures r.0.Keys == t.Keys
    decreases |keys|
  {
    if keys == [] then (t, [])
    else
      var t1 := KeyRelease(t, keys[0], tid);
      var (t2, promoted) := ReleaseKeys(t1, keys[1..], tid);
      (t2, Actions(Promoted(t[keys[0]], t1[keys[0]])) + promoted)
  }

  // The second half: each promotion is one more key; who misses none is ready
  function Wake<A>(needed: map<A, int>, promoted: seq<A>): (r: (map<A, int>, seq<A>))
    requires forall i :: 0 <= i < |promoted| ==> promoted[i] in needed
    ensures r.0.Keys == needed.Keys
    decreases |promoted|
  {
    if promoted == [] then (needed, [])
    else
      var n := needed[promoted[0]] - 1;
      var (needed', ready) := Wake(needed[promoted[0] := n], promoted[1..]);
      (needed', if n == 0 then [promoted[0]] + ready else ready)
  }

  // No counter is taken below zero (the assert of gotkeys())
  predicate CanWake<A>(needed: map<A, int>, promoted: seq<A>)
    decreases |promoted|
  {
    promoted != [] ==>
      && promoted[0] in needed && needed[promoted[0]] >= 1
      && CanWake(needed[promoted[0] := needed[promoted[0]] - 1], promoted[1..])
  }

  ghost predicate CanWakeAll<A>(needed: map<A, int>, promoted: seq<A>) {
    (forall i :: 0 <= i < |promoted| ==> promoted[i] in needed) && CanWake(needed, promoted)
  }

  // ---------------------------------------------------------------------------
  // The order of the two lists
  // ---------------------------------------------------------------------------

  /** The promotions of a key come after those of the keys that were released before it. */
  lemma {:induction false} ReleasesInOrder<K, A>(t: Table<K, A>, keys: seq<K>, k: K, tid: nat)
    requires k in t && forall i :: 0 <= i < |keys| ==> keys[i] in t
    ensures var (t1, promoted) := ReleaseKeys(t, keys, tid);
            var (t2, all) := ReleaseKeys(t, keys + [k], tid);
            && t2 == t1[k := ReleaseStep(t1[k], tid)]
            && all == promoted + Actions(Promoted(t1[k], t2[k]))
    decreases |keys|
  {
    hide ReleaseStep, Promoted;
    if keys == [] {
      assert (keys + [k])[1..] == [];
    } else {
      var t' := KeyRelease(t, keys[0], tid);
      assert (keys + [k])[1..] == keys[1..] + [k];
      ReleasesInOrder(t', keys[1..], k, tid);
    }
  }

  /** The ready list is in the order in which the last missing keys arrive: one more promotion
      lowers one counter by one and appends its action if that was the last. */
  lemma {:induction false} WakesInOrder<A>(needed: map<A, int>, promoted: seq<A>, a: A)
    requires a in needed && forall i :: 0 <= i < |promoted| ==> promoted[i] in needed
    ensures var (needed1, ready) := Wake(needed, promoted);
            && Wake(needed, promoted + [a]).0 == needed1[a := needed1[a] - 1]
            && Wake(needed, promoted + [a]).1 == ready + if needed1[a] == 1 then [a] else []
    decreases |promoted|
  {
    if promoted == [] {
      assert (promoted + [a])[1..] == [];
    } else {
      assert (promoted + [a])[1..] == promoted[1..] + [a];
      WakesInOrder(needed[promoted[0] := needed[promoted[0]] - 1], promoted[1..], a);
    }
  }

  // ---------------------------------------------------------------------------
  // Multi-key accounting
  // ---------------------------------------------------------------------------

  // How often an action is among the waiters of a lock
  ghost function WaitEntries<A>(s: LockState<A>, a: A): nat {
    multiset(Actions(s.waiters))[a]
  }

  // How many of its keys an action still waits for
  ghost function Missing<K, A>(t: Table<K, A>, keys: seq<K>, a: A): nat {
    if keys == [] then 0 else WaitEntries(Lookup(t, keys[0]), a) + Missing(t, keys[1..], a)
  }

  // Every lock keeps its invariant
  ghost predicate TableInv<K(!new), A>(t: Table<K, A>) {
    forall k :: k in t ==> LockInv(t[k])
  }

  ghost predicate OwnsAll<K, A>(t: Table<K, A>, keys: seq<K>, tid: nat) {
    forall i :: 0 <= i < |keys| ==> keys[i] in t && HasTid(t[keys[i]].owners, tid)
  }

  lemma {:induction false} MissingElsewhere<K, A>(t: Table<K, A>, k: K, s': LockState<A>, keys: seq<K>, a: A)
    requires k !in keys
    ensures Missing(t[k := s'], keys, a) == Missing(t, keys, a)
    decreases |keys|
  {
    if keys != [] {
      MissingElsewhere(t, k, s', keys[1..], a);
    }
  }

  lemma {:induction false} MissingUpdate<K, A>(t: Table<K, A>, k: K, s': LockState<A>, keys: seq<K>, a: A)
    requires NoDup(keys) && k in keys
    ensures Missing(t[k := s'], keys, a) == Missing(t, keys, a) - WaitEntries(Lookup(t, k), a) + WaitEntries(s', a)
    decreases |keys|
  {
    if keys[0] == k {
      assert k !in keys[1..];
      MissingElsewhere(t, k, s', keys[1..], a);
    } else {
      assert k in keys[1..];
      MissingUpdate(t, k, s', keys[1..], a);
    }
  }

  /** A release turns waiting entries into promotions, one for one. */
  lemma ReleaseConservesEntries<A>(s: LockState<A>, tid: nat, a: A)
    requires LockInv(s) && HasTid(s.owners, tid)
    ensures var s' := ReleaseStep(s, tid);
            WaitEntries(s, a) == multiset(Actions(Promoted(s, s')))[a] + WaitEntries(s', a)
  {
    ReleaseLeavesLine(s, tid);
    var s' := ReleaseStep(s, tid);
    ActionsConcat(Promoted(s, s'), s'.waiters);
  }

  // What one key release does to the table and to the counters
  lemma KeyReleaseAccounts<K(!new), A>(t: Table<K, A>, k: K, tid: nat, aKeys: seq<K>, a: A)
    requires TableInv(t) && k in t && HasTid(t[k].owners, tid)
    requires NoDup(aKeys) && (WaitEntries(t[k], a) > 0 ==> k in aKeys)
    ensures var t' := KeyRelease(t, k, tid);
            && TableInv(t')
            && Missing(t', aKeys, a) == Missing(t, aKeys, a) - multiset(Actions(Promoted(t[k], t'[k])))[a]
  {
    var s' := ReleaseStep(t[k], tid);
    GiveKeeps(t[k], tid);
    ReleaseConservesEntries(t[k], tid, a);
    if k in aKeys {
      MissingUpdate(t, k, s', aKeys, a);
    } else {
      MissingElsewhere(t, k, s', aKeys, a);
    }
  }

  /** Releasing the keys of an action lowers the missing keys of every other action by
      exactly the number of times it occurs among the promoted. */
  lemma {:induction false} ReleaseKeysAccounts<K(!new), A>(t: Table<K, A>, keys: seq<K>, tid: nat, aKeys: seq<K>, a: A)
    requires TableInv(t) && OwnsAll(t, keys, tid) && NoDup(keys) && NoDup(aKeys)
    requires forall k :: k in keys && WaitEntries(t[k], a) > 0 ==> k in aKeys
    ensures var (t', promoted) := ReleaseKeys(t, keys, tid);
            && TableInv(t')
            && Missing(t', aKeys, a) == Missing(t, aKeys, a) - multiset(promoted)[a]
    decreases |keys|
  {
    if keys != [] {
      KeyReleaseAccounts(t, keys[0], tid, aKeys, a);
      var t1 := KeyRelease(t, keys[0], tid);
      assert forall k :: k in keys[1..] ==> k != keys[0] && t1[k] == t[k];
      ReleaseKeysAccounts(t1, keys[1..], tid, aKeys, a);
      var promoted := ReleaseKeys(t1, keys[1..], tid).1;
      var here := Actions(Promoted(t[keys[0]], t1[keys[0]]));
      assert multiset(here + promoted) == multiset(here) + multiset(promoted);
    }
  }

  lemma {:induction false} EnoughMissingCanWake<A>(needed: map<A, int>, promoted: seq<A>)
    requires forall i :: 0 <= i < |promoted| ==> promoted[i] in needed
    requires forall a :: a in needed ==> needed[a] >= multiset(promoted)[a]
    ensures CanWake(needed, promoted)
    decreases |promoted|
  {
    if promoted != [] {
      assert promoted == [promoted[0]] + promoted[1..];
      assert multiset(promoted) == multiset{promoted[0]} + multiset(promoted[1..]);
      EnoughMissingCanWake(needed[promoted[0] := needed[promoted[0]] - 1], promoted[1..]);
    }
  }

  /** If every action misses at least as many keys as it has promotions, no counter goes
      below zero (the assert of gotkeys()), and an action is put on the ready list exactly
      once, when its last missing key arrives. */
  lemma {:induction false} WakeIsExact<A>(needed: map<A, int>, promoted: seq<A>, a: A)
    requires forall i :: 0 <= i < |promoted| ==> promoted[i] in needed
    requires a in needed && needed[a] >= multiset(promoted)[a]
    ensures var (needed', ready) := Wake(needed, promoted);
            && needed'[a] == needed[a] - multiset(promoted)[a] >= 0
            && multiset(ready)[a] == (if a in promoted && needed'[a] == 0 then 1 else 0)
    decreases |promoted|
  {
    if promoted != [] {
      var n := needed[promoted[0]] - 1;
      assert promoted == [promoted[0]] + promoted[1..];
      assert multiset(promoted) == multiset{promoted[0]} + multiset(promoted[1..]);
      WakeIsExact(needed[promoted[0] := n], promoted[1..], a);
      var (needed', ready) := Wake(needed[promoted[0] := n], promoted[1..]);
      if n == 0 {
        assert multiset([promoted[0]] + ready) == multiset{promoted[0]} + multiset(ready);
      }
    }
  }

  // ---------------------------------------------------------------------------
  // Acquiring and releasing whole actions
  // ---------------------------------------------------------------------------

  // The request vector of an action: the same request on each of its keys
  function RequestsOf<K, A>(keys: seq<K>, r: Request<A>): (reqs: seq<KeyRequest<K, A>>)
    ensures |reqs| == |keys| && forall i :: 0 <= i < |keys| ==> reqs[i] == KeyRequest(keys[i], r)
  {
    seq(|keys|, i requires 0 <= i < |keys| => KeyRequest(keys[i], r))
  }

  // A transaction that has not asked for any of the keys yet
  ghost predicate Fresh<K, A>(t: Table<K, A>, keys: seq<K>, tid: nat) {
    forall k :: k in keys ==> !HasTid(Lookup(t, k).owners, tid) && !HasTid(Lookup(t, k).waiters, tid)
  }

  // An acquire adds a waiting entry for its own action, or none
  lemma AcquireAddsEntry<A>(s: LockState<A>, r: Request<A>, b: A)
    requires ModeInv(s) && r.mode != NoLock && !HasTid(s.owners, r.tid)
    ensures var (s', ok) := AcquireStep(s, r);
            WaitEntries(s', b) == WaitEntries(s, b) + (if b == r.action && !ok then 1 else 0)
  {
    AcquireLists(s, r);
    ActionsAppend(s.waiters, r);
  }

  lemma KeyAcquireAccounts<K(!new), A>(t: Table<K, A>, k: K, r: Request<A>, bKeys: seq<K>, b: A)
    requires TableInv(t) && r.mode != NoLock && NoDup(bKeys)
    requires !HasTid(Lookup(t, k).owners, r.tid) && !HasTid(Lookup(t, k).waiters, r.tid)
    requires b == r.action ==> k in bKeys
    ensures var (t', ok) := KeyAcquire(t, KeyRequest(k, r));
            && TableInv(t')
            && Missing(t', bKeys, b) == Missing(t, bKeys, b) + (if b == r.action && !ok then 1 else 0)
            && WaitEntries(t'[k], b) == WaitEntries(Lookup(t, k), b) + (if b == r.action && !ok then 1 else 0)
  {
    hide HasTid, WaitEntries, AcquireStep, NoDup;
    var s := Lookup(t, k);
    var (s', ok) := AcquireStep(s, r);
    AskKeeps(s, r);
    AcquireAddsEntry(s, r, b);
    if k in bKeys {
      MissingUpdate(t, k, s', bKeys, b);
    } else {
      MissingElsewhere(t, k, s', bKeys, b);
    }
  }

  lemma AcquireRest<K, A>(t: Table<K, A>, keys: seq<K>, r: Request<A>)
    requires keys != [] && NoDup(keys) && Fresh(t, keys, r.tid)
    ensures var t1 := KeyAcquire(t, KeyRequest(keys[0], r)).0;
            && Fresh(t1, keys[1..], r.tid)
            && NoDup(keys[1..])
            && RequestsOf(keys, r)[0] == KeyRequest(keys[0], r)
            && RequestsOf(keys, r)[1..] == RequestsOf(keys[1..], r)
  {
    assert forall k :: k in keys[1..] ==> k != keys[0] && k in keys;
  }

  lemma {:induction false} AcquireAllTable<K(!new), A>(t: Table<K, A>, keys: seq<K>, r: Request<A>)
    requires TableInv(t) && r.mode != NoLock && NoDup(keys) && Fresh(t, keys, r.tid)
    ensures var t' := AcquireAll(t, RequestsOf(keys, r)).0;
            TableInv(t') && t'.Keys == t.Keys + set k | k in keys
    decreases |keys|
  {
    if keys != [] {
      AcquireRest(t, keys, r);
      AskKeeps(Lookup(t, keys[0]), r);
      AcquireAllTable(KeyAcquire(t, KeyRequest(keys[0], r)).0, keys[1..], r);
    }
  }

  /** Acquiring queues the action on every key: afterwards it misses exactly the keys that
      were not acquired, and nobody else is affected. */
  lemma {:induction false} AcquireAllAccounts<K(!new), A>(t: Table<K, A>, keys: seq<K>, r: Request<A>,
      bKeys: seq<K>, b: A)
    requires TableInv(t) && r.mode != NoLock && NoDup(keys) && Fresh(t, keys, r.tid) && NoDup(bKeys)
    requires b == r.action ==> forall k :: k in keys ==> k in bKeys
    ensures var (t', n) := AcquireAll(t, RequestsOf(keys, r));
            Missing(t', bKeys, b) == Missing(t, bKeys, b) + (if b == r.action then |keys| - n else 0)
    decreases |keys|
  {
    if keys != [] {
      KeyAcquireAccounts(t, keys[0], r, bKeys, b);
      AcquireRest(t, keys, r);
      AcquireAllAccounts(KeyAcquire(t, KeyRequest(keys[0], r)).0, keys[1..], r, bKeys, b);
    }
  }

  lemma {:induction false} AcquireAllEntries<K(!new), A>(t: Table<K, A>, keys: seq<K>, r: Request<A>, k: K, b: A)
    requires TableInv(t) && r.mode != NoLock && NoDup(keys) && Fresh(t, keys, r.tid)
    ensures var t' := AcquireAll(t, RequestsOf(keys, r)).0;
            k in t' && WaitEntries(t'[k], b) > 0 ==>
                  (b == r.action && k in keys) || (k in t && WaitEntries(t[k], b) > 0)
    decreases |keys|
  {
    if keys != [] {
      KeyAcquireAccounts(t, keys[0], r, [keys[0]], b);
      AcquireRest(t, keys, r);
      AcquireAllEntries(KeyAcquire(t, KeyRequest(keys[0], r)).0, keys[1..], r, k, b);
    }
  }

  // The counter of an action is the number of its keys on which it still waits
  ghost predicate CountIsRight<K, A>(t: Table<K, A>, needed: map<A, int>, keysOf: map<A, seq<K>>, a: A)
    requires a in needed && a in keysOf
  {
    NoDup(keysOf[a]) && needed[a] == Missing(t, keysOf[a], a)
  }

  // Only registered actions wait, each on its own keys
  ghost predicate WaitIsOwn<K, A>(t: Table<K, A>, keysOf: map<A, seq<K>>, k: K)
    requires k in t
  {
    forall a :: a in Actions(t[k].waiters) ==> a in keysOf && k in keysOf[a]
  }

  // The counters agree with the table for every registered action
  ghost predicate Accounted<K(!new), A>(t: Table<K, A>, needed: map<A, int>, keysOf: map<A, seq<K>>) {
    && keysOf.Keys == needed.Keys
    && (forall a :: a in needed ==> CountIsRight(t, needed, keysOf, a))
    && (forall k :: k in t ==> WaitIsOwn(t, keysOf, k))
  }

  /** acquire_all keeps the accounting: the counter set by the action, less the keys it got,
      is the number of keys on which it still waits. */
  lemma AcquireAllKeepsAccounts<K(!new), A>(
      t: Table<K, A>, needed: map<A, int>, keysOf: map<A, seq<K>>, keys: seq<K>, r: Request<A>)
    requires TableInv(t) && Accounted(t, needed, keysOf)
    requires r.mode != NoLock && NoDup(keys) && Fresh(t, keys, r.tid) && r.action !in needed
    ensures var (t', n) := AcquireAll(t, RequestsOf(keys, r));
            Accounted(t', needed[r.action := |keys| - n], keysOf[r.action := keys])
  {
    var (t', n) := AcquireAll(t, RequestsOf(keys, r));
    var needed', keysOf' := needed[r.action := |keys| - n], keysOf[r.action := keys];
    forall a | a in needed' ensures CountIsRight(t', needed', keysOf', a) {
      OneActionAcquired(t, needed, keysOf, keys, r, a);
    }
    forall k | k in t' ensures WaitIsOwn(t', keysOf', k) {
      OneKeyAcquired(t, needed, keysOf, keys, r, k);
    }
    assert keysOf'.Keys == needed'.Keys;
  }

  lemma OneKeyAcquired<K(!new), A>(
      t: Table<K, A>, needed: map<A, int>, keysOf: map<A, seq<K>>, keys: seq<K>, r: Request<A>, k: K)
    requires TableInv(t) && Accounted(t, needed, keysOf)
    requires r.mode != NoLock && NoDup(keys) && Fresh(t, keys, r.tid) && r.action !in needed
    requires k in AcquireAll(t, RequestsOf(keys, r)).0
    ensures WaitIsOwn(AcquireAll(t, RequestsOf(keys, r)).0, keysOf[r.action := keys], k)
  {
    var t' := AcquireAll(t, RequestsOf(keys, r)).0;
    assert k in t ==> WaitIsOwn(t, keysOf, k);
    forall a | a in Actions(t'[k].waiters)
      ensures a in keysOf[r.action := keys] && k in keysOf[r.action := keys][a]
    {
      AcquireAllEntries(t, keys, r, k, a);
    }
  }

  lemma OneActionAcquired<K(!new), A>(
      t: Table<K, A>, needed: map<A, int>, keysOf: map<A, seq<K>>, keys: seq<K>, r: Request<A>, a: A)
    requires TableInv(t) && Accounted(t, needed, keysOf)
    requires r.mode != NoLock && NoDup(keys) && Fresh(t, keys, r.tid) && r.action !in needed
    requires a in needed || a == r.action
    ensures var (t', n) := AcquireAll(t, RequestsOf(keys, r));
            CountIsRight(t', needed[r.action := |keys| - n], keysOf[r.action := keys], a)
  {
    if a == r.action {
      forall k | k in t ensures WaitEntries(t[k], a) == 0 {
        assert WaitIsOwn(t, keysOf, k);
      }
      MissingNothing(t, keys, a);
      AcquireAllAccounts(t, keys, r, keys, a);
    } else {
      assert CountIsRight(t, needed, keysOf, a);
      AcquireAllAccounts(t, keys, r, keysOf[a], a);
    }
  }

  lemma {:induction false} MissingNothing<K, A>(t: Table<K, A>, keys: seq<K>, a: A)
    requires forall k :: k in t ==> WaitEntries(t[k], a) == 0
    ensures Missing(t, keys, a) == 0
    decreases |keys|
  {
    if keys != [] {
      MissingNothing(t, keys[1..], a);
    }
  }

  lemma {:induction false} ReleaseKeysShrinks<K(!new), A>(t: Table<K, A>, keys: seq<K>, tid: nat, k: K, b: A)
    requires TableInv(t) && OwnsAll(t, keys, tid) && NoDup(keys) && k in t
    ensures var (t', promoted) := ReleaseKeys(t, keys, tid);
            && WaitEntries(t'[k], b) <= WaitEntries(t[k], b)
            && (b in promoted ==> exists j :: j in keys && WaitEntries(t[j], b) > 0)
    decreases |keys|
  {
    if keys != [] {
      GiveKeeps(t[keys[0]], tid);
      ReleaseConservesEntries(t[keys[0]], tid, b);
      var t1 := KeyRelease(t, keys[0], tid);
      assert forall j :: j in keys[1..] ==> j != keys[0] && t1[j] == t[j];
      ReleaseKeysShrinks(t1, keys[1..], tid, k, b);
    }
  }

  /** release_all keeps the accounting; no counter ever goes below zero; and the ready list
      holds, once each, exactly the actions whose last missing key has just arrived. */
  lemma ReleaseAllKeepsAccounts<K(!new), A>(
      t: Table<K, A>, needed: map<A, int>, keysOf: map<A, seq<K>>, keys: seq<K>, tid: nat)
    requires TableInv(t) && Accounted(t, needed, keysOf) && OwnsAll(t, keys, tid) && NoDup(keys)
    ensures var (t', promoted) := ReleaseKeys(t, keys, tid);
            && TableInv(t')
            && (forall i :: 0 <= i < |promoted| ==> promoted[i] in needed)
            && var (needed', ready) := Wake(needed, promoted);
            && Accounted(t', needed', keysOf)
            && forall a :: a in needed ==>
                 && multiset(ready)[a] == (if needed[a] > 0 && needed'[a] == 0 then 1 else 0)
                 && 0 <= needed'[a] <= needed[a]
  {
    hide LockInv, NoDup, HasTid, ReleaseKeys, Wake, Missing;
    var (t', promoted) := ReleaseKeys(t, keys, tid);
    PromotedAreNeeded(t, needed, keysOf, keys, tid);
    var (needed', ready) := Wake(needed, promoted);
    forall a | a in needed
      ensures CountIsRight(t', needed', keysOf, a)
      ensures multiset(ready)[a] == (if needed[a] > 0 && needed'[a] == 0 then 1 else 0)
      ensures 0 <= needed'[a] <= needed[a]
    {
      OneActionReleased(t, needed, keysOf, keys, tid, a);
    }
    ReleaseKeysTable(t, keys, tid);
    forall k | k in t' ensures WaitIsOwn(t', keysOf, k) {
      assert WaitIsOwn(t, keysOf, k);
      forall a | a in Actions(t'[k].waiters) ensures a in keysOf && k in keysOf[a] {
        ReleaseKeysShrinks(t, keys, tid, k, a);
      }
    }
  }

  lemma OneActionReleased<K(!new), A>(
      t: Table<K, A>, needed: map<A, int>, keysOf: map<A, seq<K>>, keys: seq<K>, tid: nat, a: A)
    requires TableInv(t) && Accounted(t, needed, keysOf) && OwnsAll(t, keys, tid) && NoDup(keys) && a in needed
    requires forall i :: 0 <= i < |ReleaseKeys(t, keys, tid).1| ==> ReleaseKeys(t, keys, tid).1[i] in needed
    ensures var (t', promoted) := ReleaseKeys(t, keys, tid);
            var (needed', ready) := Wake(needed, promoted);
            && CountIsRight(t', needed', keysOf, a)
            && needed[a] >= multiset(promoted)[a]
            && multiset(ready)[a] == (if needed[a] > 0 && needed'[a] == 0 then 1 else 0)
            && 0 <= needed'[a] <= needed[a]
  {
    hide LockInv, NoDup, HasTid, ReleaseKeys, Wake, Missing;
    var promoted := ReleaseKeys(t, keys, tid).1;
    assert CountIsRight(t, needed, keysOf, a);
    forall k | k in keys ensures WaitEntries(t[k], a) > 0 ==> k in keysOf[a] {
      assert WaitIsOwn(t, keysOf, k);
    }
    ReleaseKeysAccounts(t, keys, tid, keysOf[a], a);
    WakeIsExact(needed, promoted, a);
  }

  /** The assert of gotkeys() never fails: every promotion finds a missing key to count. */
  lemma ReleaseAllCanWake<K(!new), A>(
      t: Table<K, A>, needed: map<A, int>, keysOf: map<A, seq<K>>, keys: seq<K>, tid: nat)
    requires TableInv(t) && Accounted(t, needed, keysOf) && OwnsAll(t, keys, tid) && NoDup(keys)
    ensures var promoted := ReleaseKeys(t, keys, tid).1;
            CanWakeAll(needed, promoted)
  {
    PromotedAreNeeded(t, needed, keysOf, keys, tid);
    forall a | a in needed ensures needed[a] >= multiset(ReleaseKeys(t, keys, tid).1)[a] {
      OneActionReleased(t, needed, keysOf, keys, tid, a);
    }
    EnoughMissingCanWake(needed, ReleaseKeys(t, keys, tid).1);
  }

  lemma PromotedAreNeeded<K(!new), A>(
      t: Table<K, A>, needed: map<A, int>, keysOf: map<A, seq<K>>, keys: seq<K>, tid: nat)
    requires TableInv(t) && Accounted(t, needed, keysOf) && OwnsAll(t, keys, tid) && NoDup(keys)
    ensures forall i :: 0 <= i < |ReleaseKeys(t, keys, tid).1| ==> ReleaseKeys(t, keys, tid).1[i] in needed
  {
    var promoted := ReleaseKeys(t, keys, tid).1;
    forall i | 0 <= i < |promoted| ensures promoted[i] in needed {
      if keys != [] {
        ReleaseKeysShrinks(t, keys, tid, keys[0], promoted[i]);
        var k :| k in keys && WaitEntries(t[k], promoted[i]) > 0;
        assert WaitIsOwn(t, keysOf, k);
      }
    }
  }

  lemma {:induction false} ReleaseKeysTable<K(!new), A>(t: Table<K, A>, keys: seq<K>, tid: nat)
    requires TableInv(t) && OwnsAll(t, keys, tid) && NoDup(keys)
    ensures TableInv(ReleaseKeys(t, keys, tid).0)
    decreases |keys|
  {
    if keys != [] {
      GiveKeeps(t[keys[0]], tid);
      ReleaseKeysTable(KeyRelease(t, keys[0], tid), keys[1..], tid);
    }
  }
}
