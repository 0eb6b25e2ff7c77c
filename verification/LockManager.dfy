/** The lock manager of a partition as objects: actions with their key counters, the map of
    logical locks, and the manager that acquires and releases whole actions.  Every method
    is tied to the table functions of `LockTables`. */
module LockManagers {
  import opened KeyWrappers
  import opened LockModes
  import opened LogicalLocks
  import opened LockTables
  import opened Sequences

  // What the hook of the real action computes: its keys and whether it only reads
  datatype Access = Point(down: Key, readOnly: bool) | Range(keyList: seq<Key>, readOnly: bool)

  function KeysOf(access: Access): seq<Key> {
    match access
    case Point(k, _) => [k]
    case Range(ks, _) => ks
  }

  class RangeAction {
    const tid: nat
    const access: Access
    var keysNeeded: int
    var keysSet: bool
    var requests: seq<KeyRequest<Key, RangeAction>>

    constructor (tid: nat, access: Access)
      ensures this.tid == tid && this.access == access && !keysSet && requests == []
    {
      this.tid := tid;
      this.access := access;
      keysNeeded := 2;
      keysSet := false;
      requests := [];
    }

    ghost function Request(): Request<RangeAction> {
      LogicalLocks.Request(this, tid, if access.readOnly then Shared else Excl)
    }

    method SetKeys(numLocks: int)
      requires numLocks != 0
      modifies this`keysNeeded
      ensures keysNeeded == numLocks
    {
      keysNeeded := numLocks;
    }

    method GotKeys(numLocks: int) returns (ready: bool)
      requires keysNeeded - numLocks >= 0
      modifies this`keysNeeded
      ensures keysNeeded == old(keysNeeded) - numLocks
      ensures ready <==> keysNeeded == 0
    {
      keysNeeded := keysNeeded - numLocks;
      ready := keysNeeded == 0;
    }

    method IsReady() returns (ready: bool)
      ensures ready <==> keysNeeded == 0
    {
      ready := keysNeeded == 0;
    }

    /** trx_upd_keys(): the request vector and the counter are set once.  A point action asks
        for its one key, a range action for every key of its list, in their order and once for
        each; every request is one of this action, exclusive unless the action only reads. */
    method TrxUpdKeys()
      requires !keysSet ==> KeysOf(access) != [] && requests == []
      modifies this
      ensures old(keysSet) ==> keysNeeded == old(keysNeeded) && requests == old(requests)
      ensures !old(keysSet) ==>
                keysNeeded == |KeysOf(access)| && requests == RequestsOf(KeysOf(access), Request())
      ensures !old(keysSet) ==>
                && keysNeeded == |requests|
                && (access.Point? ==> |requests| == 1 && requests[0].key == access.down)
                && (access.Range? ==>
                      && |requests| == |access.keyList|
                      && forall i :: 0 <= i < |requests| ==> requests[i].key == access.keyList[i])
      ensures !old(keysSet) ==>
                forall i :: 0 <= i < |requests| ==>
                  && requests[i].req.action == this && requests[i].req.tid == tid
                  && requests[i].req.mode == if access.readOnly then Shared else Excl
      ensures keysSet
    {
      if keysSet {
        return;
      }
      var mode := if access.readOnly then Shared else Excl;
      match access
      case Range(keyList, _) =>
        SetKeys(|keyList|);
        for i := 0 to |keyList|
          invariant keysNeeded == |keyList| && access.Range? && keyList == access.keyList
          invariant requests == RequestsOf(keyList, Request())[..i]
        {
          requests := requests + [KeyRequest(keyList[i], LogicalLocks.Request(this, tid, mode))];
        }
        keysSet := true;
      case Point(down, _) =>
        SetKeys(1);
        requests := requests + [KeyRequest(down, LogicalLocks.Request(this, tid, mode))];
        keysSet := true;
    }
  }

  class KeyLockMap {
    var llMap: map<Key, LogicalLock<RangeAction>>

    constructor ()
      ensures Valid() && Tab() == map[] && llMap == map[]
    {
      llMap := map[];
    }

    ghost predicate Valid()
      reads this, llMap.Values
    {
      && (forall k :: k in llMap ==> llMap[k].Valid())
      && (forall j, k :: j in llMap && k in llMap && j != k ==> llMap[j] != llMap[k])
    }

    ghost function Tab(): Table<Key, RangeAction>
      reads this, llMap.Values
    {
      map k | k in llMap :: llMap[k].State()
    }

    // Insert a lock that is owned from the start
    method Insert(r: KeyRequest<Key, RangeAction>, ghost t: Table<Key, RangeAction>)
      requires Valid() && t == Tab() && r.req.mode != NoLock && r.key !in llMap
      modifies this
      ensures Valid() && fresh(llMap.Values - old(llMap.Values))
      ensures Tab() == KeyAcquire(t, r).0 && KeyAcquire(t, r).1
    {
      hide ModeInv, GrantCount;
      var ll := new LogicalLock<RangeAction>(r.req);
      llMap := llMap[r.key := ll];
      forall v | v in llMap.Values ensures v == ll || v in old(llMap.Values) {
        var k :| k in llMap && llMap[k] == v;
      }
      assert Tab() == t[r.key := ll.State()];
    }

    // Update the lock of the key, or insert one
    method AcquireLock(r: KeyRequest<Key, RangeAction>, ghost t: Table<Key, RangeAction>) returns (acquired: bool)
      requires Valid() && t == Tab() && r.req.mode != NoLock && !UpgradeClash(Lookup(t, r.key), r.req)
      modifies this, llMap.Values
      ensures Valid() && fresh(llMap.Values - old(llMap.Values))
      ensures Tab() == KeyAcquire(t, r).0 && acquired == KeyAcquire(t, r).1
    {
      if r.key in llMap {
        acquired := llMap[r.key].Acquire(r.req);
        assert Tab() == t[r.key := llMap[r.key].State()];
      } else {
        Insert(r, t);
        acquired := true;
      }
    }

    method Acquire(r: KeyRequest<Key, RangeAction>, ghost t: Table<Key, RangeAction>) returns (acquired: bool)
      requires Valid() && t == Tab() && r.req.mode != NoLock && !UpgradeClash(Lookup(t, r.key), r.req)
      requires r.req.action.keysNeeded > 0
      modifies this, llMap.Values, r.req.action`keysNeeded
      ensures Valid() && fresh(llMap.Values - old(llMap.Values))
      ensures Tab() == KeyAcquire(t, r).0 && acquired == KeyAcquire(t, r).1
      ensures r.req.action.keysNeeded == old(r.req.action.keysNeeded) - (if acquired then 1 else 0)
    {
      acquired := AcquireLock(r, t);
      if acquired {
        var _ := r.req.action.GotKeys(1);
      }
    }

    method Release(key: Key, tid: nat, promotedList: seq<RangeAction>) returns (promotedList': seq<RangeAction>)
      requires Valid() && key in llMap && (HasTid(llMap[key].owners, tid) || llMap[key].dlm == NoLock)
      modifies llMap.Values
      ensures Valid() && llMap == old(llMap)
      ensures Tab() == KeyRelease(old(Tab()), key, tid)
      ensures promotedList' == promotedList + Actions(Promoted(old(Tab())[key], Tab()[key]))
    {
      hide ModeInv, ReleaseStep, Promoted;
      ghost var t: Table<Key, RangeAction> := Tab();
      var n;
      n, promotedList' := llMap[key].Release(tid, promotedList);
      assert Tab() == t[key := llMap[key].State()];
    }
  }

  ghost function NeededOf(actions: set<RangeAction>): map<RangeAction, int>
    reads actions
  {
    map a | a in actions :: a.keysNeeded
  }

  // None of the requests, made one after the other, is an upgrade among several owners
  predicate NoClash<K, A>(t: Table<K, A>, reqs: seq<KeyRequest<K, A>>)
    decreases |reqs|
  {
    reqs != [] ==>
      && reqs[0].req.mode != NoLock && !UpgradeClash(Lookup(t, reqs[0].key), reqs[0].req)
      && NoClash(KeyAcquire(t, reqs[0]).0, reqs[1..])
  }

  // The first i requests have been made and led to this table; so many were not granted
  ghost predicate AskedSoFar<K, A>(
      t0: Table<K, A>, reqs: seq<KeyRequest<K, A>>, t: Table<K, A>, i: nat, missed: nat)
    requires i <= |reqs|
  {
    && NoClash(t, reqs[i..])
    && AcquireAll(t0, reqs).0 == AcquireAll(t, reqs[i..]).0
    && AcquireAll(t0, reqs).1 == AcquireAll(t, reqs[i..]).1 + i - missed
  }

  // What release() and gotkeys() assert
  ghost predicate MayRelease(t: Table<Key, RangeAction>, needed: map<RangeAction, int>, keys: seq<Key>, tid: nat) {
    NoDup(keys) && OwnsAll(t, keys, tid) && CanWakeAll(needed, ReleaseKeys(t, keys, tid).1)
  }

  // The table, the counters and the two lists after release_all
  ghost predicate Released(
      t: Table<Key, RangeAction>, needed: map<RangeAction, int>, keys: seq<Key>, tid: nat,
      t': Table<Key, RangeAction>, needed': map<RangeAction, int>, promoted: seq<RangeAction>, ready: seq<RangeAction>)
    requires MayRelease(t, needed, keys, tid)
  {
    && t' == ReleaseKeys(t, keys, tid).0 && promoted == ReleaseKeys(t, keys, tid).1
    && needed' == Wake(needed, promoted).0 && ready == Wake(needed, promoted).1
  }

  class LockMan {
    const keyLlM: KeyLockMap

    constructor ()
      ensures keyLlM.Valid() && keyLlM.Tab() == map[] && fresh(keyLlM) && keyLlM.llMap == map[]
    {
      keyLlM := new KeyLockMap();
    }

    /** Asks for every key and counts those that were acquired.  A transaction may already own
        some of them; only an upgrade among several owners is excluded, where the code asserts. */
    method AcquireAll(paction: RangeAction, ghost t0: Table<Key, RangeAction>) returns (all: bool)
      requires keyLlM.Valid() && t0 == keyLlM.Tab() && paction.keysSet
      requires paction.requests == RequestsOf(KeysOf(paction.access), paction.Request())
      requires paction.requests != [] && paction.keysNeeded == |paction.requests|
      requires NoClash(t0, paction.requests)
      modifies keyLlM, keyLlM.llMap.Values, paction`keysNeeded
      ensures keyLlM.Valid() && fresh(keyLlM.llMap.Values - old(keyLlM.llMap.Values))
      ensures keyLlM.Tab() == LockTables.AcquireAll(t0, paction.requests).0
      ensures paction.keysNeeded == |paction.requests| - LockTables.AcquireAll(t0, paction.requests).1
      ensures all <==> paction.keysNeeded == 0
    {
      hide AskedSoFar, NoClash, LockTables.AcquireAll, KeyAcquire;
      ghost var missed := 0;
      all := true;
      var i := 0;
      NothingAsked(t0, paction.requests);
      while i < |paction.requests|
        invariant 0 <= i <= |paction.requests| && keyLlM.Valid()
        invariant fresh(keyLlM.llMap.Values - old(keyLlM.llMap.Values))
        invariant AskedSoFar(t0, paction.requests, keyLlM.Tab(), i, missed)
        invariant paction.keysNeeded == |paction.requests| - i + missed && (all <==> missed == 0)
      {
        // a key that cannot be acquired does not stop the loop
        AskNext(t0, paction.requests, keyLlM.Tab(), i, missed);
        var acquired := keyLlM.Acquire(paction.requests[i], keyLlM.Tab());
        if !acquired {
          all := false;
          missed := missed + 1;
        }
        i := i + 1;
      }
      AllAsked(t0, paction.requests, keyLlM.Tab(), missed);
    }

    /** Releases every key of the action, then counts the promotions and collects the actions
        that became ready.  The counters must cover the promotions, which `ReleaseAllCanWake`
        shows for every accounted table. */
    method ReleaseAll(
        paction: RangeAction, ghost actions: set<RangeAction>,
        ghost t0: Table<Key, RangeAction>, ghost needed: map<RangeAction, int>)
      returns (readyList: seq<RangeAction>, promotedList: seq<RangeAction>)
      requires keyLlM.Valid() && t0 == keyLlM.Tab() && needed == NeededOf(actions)
      requires paction.requests == RequestsOf(KeysOf(paction.access), paction.Request())
      requires MayRelease(t0, needed, KeysOf(paction.access), paction.tid)
      modifies keyLlM.llMap.Values, actions`keysNeeded
      ensures keyLlM.Valid()
      ensures Released(t0, needed, KeysOf(paction.access), paction.tid,
                keyLlM.Tab(), NeededOf(actions), promotedList, readyList)
    {
      hide ReleaseKeys, Wake, CanWakeAll, NoDup, OwnsAll;
      promotedList := ReleaseLocks(paction, t0);
      ghost var t1: Table<Key, RangeAction> := keyLlM.Tab();
      readyList := WakeAll(promotedList, actions, needed);
      assert forall k :: k in keyLlM.llMap ==> keyLlM.llMap[k].State() == t1[k];
      assert keyLlM.Tab() == t1;
    }

    method ReleaseLocks(paction: RangeAction, ghost t0: Table<Key, RangeAction>)
      returns (promotedList: seq<RangeAction>)
      requires keyLlM.Valid() && t0 == keyLlM.Tab()
      requires paction.requests == RequestsOf(KeysOf(paction.access), paction.Request())
      requires NoDup(KeysOf(paction.access)) && OwnsAll(t0, KeysOf(paction.access), paction.tid)
      modifies keyLlM.llMap.Values
      ensures keyLlM.Valid() && keyLlM.llMap == old(keyLlM.llMap)
      ensures keyLlM.Tab() == ReleaseKeys(t0, KeysOf(paction.access), paction.tid).0
      ensures promotedList == ReleaseKeys(t0, KeysOf(paction.access), paction.tid).1
    {
      ghost var keys: seq<Key>, tid: nat := KeysOf(paction.access), paction.tid;
      ghost var t: Table<Key, RangeAction> := t0;
      promotedList := [];
      var i := 0;
      assert keys[i..] == keys;
      while i < |paction.requests|
        invariant 0 <= i <= |paction.requests| && keyLlM.Valid() && keyLlM.llMap == old(keyLlM.llMap)
        invariant t == keyLlM.Tab() && OwnsAll(t, keys[i..], tid)
        invariant ReleaseKeys(t0, keys, tid).0 == ReleaseKeys(t, keys[i..], tid).0
        invariant ReleaseKeys(t0, keys, tid).1 == promotedList + ReleaseKeys(t, keys[i..], tid).1
      {
        ReleaseKeysStep(t, keys, i, tid);
        ghost var t1: Table<Key, RangeAction> := KeyRelease(t, keys[i], tid);
        Assoc(promotedList, Actions(Promoted(t[keys[i]], t1[keys[i]])), ReleaseKeys(t1, keys[i + 1..], tid).1);
        promotedList := keyLlM.Release(paction.requests[i].key, paction.tid, promotedList);
        t := t1;
        i := i + 1;
      }
      assert keys[i..] == [];
    }

    method WakeAll(promotedList: seq<RangeAction>, ghost actions: set<RangeAction>, ghost needed: map<RangeAction, int>)
      returns (readyList: seq<RangeAction>)
      requires needed == NeededOf(actions)
      requires CanWakeAll(needed, promotedList)
      modifies actions`keysNeeded
      ensures NeededOf(actions) == Wake(needed, promotedList).0
      ensures readyList == Wake(needed, promotedList).1
    {
      ghost var cur: map<RangeAction, int> := needed;
      hide Wake, CanWake;
      readyList := [];
      var i := 0;
      assert promotedList[i..] == promotedList;
      EmptyAppend(Wake(needed, promotedList).1);
      while i < |promotedList|
        invariant 0 <= i <= |promotedList|
        invariant cur.Keys == actions && forall a :: a in actions ==> a.keysNeeded == cur[a]
        invariant CanWakeAll(cur, promotedList[i..])
        invariant Wake(needed, promotedList).0 == Wake(cur, promotedList[i..]).0
        invariant Wake(needed, promotedList).1 == readyList + Wake(cur, promotedList[i..]).1
      {
        var ap := promotedList[i];
        WakeStep(cur, promotedList, i);
        var _ := ap.GotKeys(1);
        cur := cur[ap := cur[ap] - 1];
        var isReady := ap.IsReady();
        Assoc(readyList, if isReady then [ap] else [], Wake(cur, promotedList[i + 1..]).1);
        if isReady {
          readyList := readyList + [ap];
        }
        i := i + 1;
      }
      assert promotedList[i..] == [];
      assert NeededOf(actions) == cur;
      WakeNil(cur);
      EmptyAppend(readyList);
    }
  }

  lemma WakeNil<A>(needed: map<A, int>)
    ensures Wake(needed, []) == (needed, [])
  {
  }

  lemma NothingAsked<K, A>(t0: Table<K, A>, reqs: seq<KeyRequest<K, A>>)
    requires NoClash(t0, reqs)
    ensures AskedSoFar(t0, reqs, t0, 0, 0)
  {
    assert reqs[0..] == reqs;
  }

  lemma AskNext<K, A>(t0: Table<K, A>, reqs: seq<KeyRequest<K, A>>, t: Table<K, A>, i: nat, missed: nat)
    requires i < |reqs| && AskedSoFar(t0, reqs, t, i, missed)
    ensures reqs[i].req.mode != NoLock && !UpgradeClash(Lookup(t, reqs[i].key), reqs[i].req)
    ensures var (t', ok) := KeyAcquire(t, reqs[i]);
            AskedSoFar(t0, reqs, t', i + 1, if ok then missed else missed + 1)
  {
    hide KeyAcquire;
    assert reqs[i..][0] == reqs[i] && reqs[i..][1..] == reqs[i + 1..];
  }

  lemma AllAsked<K, A>(t0: Table<K, A>, reqs: seq<KeyRequest<K, A>>, t: Table<K, A>, missed: nat)
    requires AskedSoFar(t0, reqs, t, |reqs|, missed)
    ensures t == AcquireAll(t0, reqs).0 && missed == |reqs| - AcquireAll(t0, reqs).1
  {
    assert reqs[|reqs|..] == [];
  }

  /** A transaction that has not asked for any of the keys meets the precondition. */
  lemma {:induction false} FreshHasNoClash<K, A>(t: Table<K, A>, keys: seq<K>, r: Request<A>)
    requires r.mode != NoLock && NoDup(keys) && Fresh(t, keys, r.tid)
    ensures NoClash(t, RequestsOf(keys, r))
    decreases |keys|
  {
    if keys != [] {
      AcquireRest(t, keys, r);
      FreshHasNoClash(KeyAcquire(t, KeyRequest(keys[0], r)).0, keys[1..], r);
    }
  }

  lemma WakeStep<A>(needed: map<A, int>, promoted: seq<A>, i: nat)
    requires i < |promoted| && CanWakeAll(needed, promoted[i..])
    ensures promoted[i] in needed && needed[promoted[i]] >= 1
    ensures var n := needed[promoted[i]] - 1;
            var cur := needed[promoted[i] := n];
            && CanWakeAll(cur, promoted[i + 1..])
            && Wake(needed, promoted[i..]).0 == Wake(cur, promoted[i + 1..]).0
            && Wake(needed, promoted[i..]).1 == (if n == 0 then [promoted[i]] else []) + Wake(cur, promoted[i + 1..]).1
  {
    assert promoted[i..][1..] == promoted[i + 1..];
    assert promoted[i..][0] == promoted[i];
  }

  lemma ReleaseKeysStep<K, A>(t: Table<K, A>, keys: seq<K>, i: nat, tid: nat)
    requires i < |keys| && NoDup(keys) && OwnsAll(t, keys[i..], tid)
    ensures keys[i] in t && HasTid(t[keys[i]].owners, tid)
    ensures var t1 := KeyRelease(t, keys[i], tid);
            && OwnsAll(t1, keys[i + 1..], tid)
            && ReleaseKeys(t, keys[i..], tid).0 == ReleaseKeys(t1, keys[i + 1..], tid).0
            && ReleaseKeys(t, keys[i..], tid).1 ==
                 Actions(Promoted(t[keys[i]], t1[keys[i]])) + ReleaseKeys(t1, keys[i + 1..], tid).1
  {
    assert keys[i..][0] == keys[i] && keys[i..][1..] == keys[i + 1..];
    var t1 := KeyRelease(t, keys[i], tid);
    var rest := keys[i + 1..];
    forall j | 0 <= j < |rest| ensures rest[j] in t1 && HasTid(t1[rest[j]].owners, tid) {
      assert rest[j] == keys[i..][j + 1];
    }
  }
}
