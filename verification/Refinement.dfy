/** The objects of the lock manager run the lock table of the transition system: what the code
    does with its actions, maps and counters is what `TakeInput` and `Drain` do with values. */
module ObjectRefinement {
  import opened KeyWrappers
  import opened LockModes
  import opened LogicalLocks
  import opened LockTables
  import opened LockOrder
  import opened LockManagers
  import opened LockRenaming
  import opened Partitions
  import opened Sequences

  /** The objects stand for a partition: each action object for an action value, with the same
      locks and the same counters. */
  ghost predicate StandFor(
      f: RangeAction -> Action, t: Table<Key, RangeAction>, needed: map<RangeAction, int>, p: Part)
  {
    NamedTable(f, t) == p.table && SameCounters(f, needed, p.needed) && WaitersKnown(t, needed)
  }

  /** Taking an input action: the object asks for the keys of the value, and misses as many. */
  lemma TakeRefines(f: RangeAction -> Action, t: Table<Key, RangeAction>, p: Part, a: RangeAction)
    requires NamedTable(f, t) == p.table && p.input != [] && f(a) == p.input[0]
    requires p.input[0].tid == a.tid && p.input[0].keys == KeysOf(a.access)
    requires p.input[0].readOnly == a.access.readOnly
    ensures var reqs := RequestsOf(KeysOf(a.access), a.Request());
            && NamedTable(f, AcquireAll(t, reqs).0) == TakeInput(p).table
            && TakeInput(p).needed[p.input[0]] == |reqs| - AcquireAll(t, reqs).1
  {
    hide AcquireAll, NamedTable;
    var reqs := RequestsOf(KeysOf(a.access), a.Request());
    AcquireAllNamed(f, t, reqs);
    assert NamedRequests(f, reqs) == RequestsOf(p.input[0].keys, RequestOf(p.input[0]));
  }

  /** Draining a commit: what `release` and `gotkeys` assert of the objects is what `Drain`
      asks of the partition, and table, counters and ready list correspond afterwards. */
  lemma DrainRefines(
      f: RangeAction -> Action, t: Table<Key, RangeAction>, needed: map<RangeAction, int>, p: Part, a: RangeAction)
    requires StandFor(f, t, needed, p) && CanDrain(p) && f(a) == p.committed[0]
    requires p.committed[0].tid == a.tid && p.committed[0].keys == KeysOf(a.access) && NoDup(KeysOf(a.access))
    ensures MayRelease(t, needed, KeysOf(a.access), a.tid)
    ensures var (t', promoted) := ReleaseKeys(t, KeysOf(a.access), a.tid);
            var (needed', ready) := Wake(needed, promoted);
            StandFor(f, t', needed', Drain(p)) && Drain(p).pc == Serve(NamedActions(f, ready))
  {
    hide ReleaseKeys, Wake, CanWake, SameCounters, WaitersKnown, NoDup;
    var keys, tid := KeysOf(a.access), a.tid;
    OwnedByObjects(f, t, keys, tid);
    ReleaseKeysNamed(f, t, keys, tid);
    PromotedAreKnown(t, needed, keys, tid);
    var (t', promoted) := ReleaseKeys(t, keys, tid);
    WakeNamed(f, needed, p.needed, promoted);
    WakeKeepsKnown(t', needed, promoted);
  }

  lemma OwnedByObjects(f: RangeAction -> Action, t: Table<Key, RangeAction>, keys: seq<Key>, tid: nat)
    requires OwnsAll(NamedTable(f, t), keys, tid)
    ensures OwnsAll(t, keys, tid)
  {
    forall i | 0 <= i < |keys| ensures keys[i] in t && HasTid(t[keys[i]].owners, tid) {
      SameTids(f, t[keys[i]].owners, tid);
    }
  }

  lemma WakeKeepsKnown(t: Table<Key, RangeAction>, needed: map<RangeAction, int>, promoted: seq<RangeAction>)
    requires AllKnown(needed, promoted) && WaitersKnown(t, needed)
    ensures WaitersKnown(t, Wake(needed, promoted).0)
  {
  }
}
