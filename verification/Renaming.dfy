/** The lock functions do not look at what an action is: renaming the actions commutes with all
    of them.  With it the objects of `LockManagers` and the values of `Partitions` run the same
    lock table. */
module LockRenaming {
  import opened KeyWrappers
  import opened LockModes
  import opened LogicalLocks
  import opened LockTables
  import opened Sequences

  function Named<A, B>(f: A -> B, r: Request<A>): Request<B> { Request(f(r.action), r.tid, r.mode) }

  function AllNamed<A, B>(f: A -> B, reqs: seq<Request<A>>): (named: seq<Request<B>>)
    ensures |named| == |reqs| && forall i :: 0 <= i < |reqs| ==> named[i] == Named(f, reqs[i])
  {
    seq(|reqs|, i requires 0 <= i < |reqs| => Named(f, reqs[i]))
  }

  function NamedState<A, B>(f: A -> B, s: LockState<A>): LockState<B> {
    LockState(s.dlm, AllNamed(f, s.owners), AllNamed(f, s.waiters))
  }

  function NamedTable<K, A, B>(f: A -> B, t: Table<K, A>): Table<K, B> { map k | k in t :: NamedState(f, t[k]) }

  function NamedRequests<K, A, B>(f: A -> B, reqs: seq<KeyRequest<K, A>>): (named: seq<KeyRequest<K, B>>)
    ensures |named| == |reqs|
    ensures forall i :: 0 <= i < |reqs| ==> named[i] == KeyRequest(reqs[i].key, Named(f, reqs[i].req))
  {
    seq(|reqs|, i requires 0 <= i < |reqs| => KeyRequest(reqs[i].key, Named(f, reqs[i].req)))
  }

  function NamedActions<A, B>(f: A -> B, actions: seq<A>): (named: seq<B>)
    ensures |named| == |actions| && forall i :: 0 <= i < |actions| ==> named[i] == f(actions[i])
  {
    seq(|actions|, i requires 0 <= i < |actions| => f(actions[i]))
  }

  // ---------------------------------------------------------------------------
  // One lock
  // ---------------------------------------------------------------------------

  lemma SameTids<A, B>(f: A -> B, reqs: seq<Request<A>>, tid: nat)
    ensures HasTid(AllNamed(f, reqs), tid) <==> HasTid(reqs, tid)
    ensures IndexOf(AllNamed(f, reqs), tid) == IndexOf(reqs, tid)
  {
    var named := AllNamed(f, reqs);
    assert forall i :: 0 <= i < |reqs| ==> named[i].tid == reqs[i].tid;
    if HasTid(reqs, tid) {
      var i :| 0 <= i < |reqs| && reqs[i].tid == tid;
      assert named[i].tid == tid;
    }
    var i, j := IndexOf(named, tid), IndexOf(reqs, tid);
    assert i < |reqs| ==> reqs[i].tid == tid;
    assert j < |reqs| ==> named[j].tid == tid;
  }

  lemma {:induction false} SameWatermark<A, B>(f: A -> B, owners: seq<Request<A>>)
    ensures Watermark(AllNamed(f, owners)) == Watermark(owners)
    decreases |owners|
  {
    if owners != [] {
      var init := owners[..|owners| - 1];
      assert AllNamed(f, owners)[..|owners| - 1] == AllNamed(f, init);
      SameWatermark(f, init);
    }
  }

  lemma NamedPush<A, B>(f: A -> B, reqs: seq<Request<A>>, r: Request<A>)
    ensures AllNamed(f, reqs + [r]) == AllNamed(f, reqs) + [Named(f, r)]
  {
  }

  lemma AcquireNamed<A, B>(f: A -> B, s: LockState<A>, r: Request<A>)
    ensures AcquireStep(NamedState(f, s), Named(f, r)).0 == NamedState(f, AcquireStep(s, r).0)
    ensures AcquireStep(NamedState(f, s), Named(f, r)).1 == AcquireStep(s, r).1
  {
    SameTids(f, s.owners, r.tid);
    NamedPush(f, s.owners, r);
    NamedPush(f, s.waiters, r);
    var named := AllNamed(f, s.waiters);
    assert forall i :: 0 <= i < |named| ==> named[i].mode == s.waiters[i].mode;
    if i :| 0 <= i < |s.waiters| && !Compatible(s.waiters[i].mode, r.mode) {
      assert !Compatible(named[i].mode, r.mode);
    }
  }

  lemma {:induction false} PromoteNamed<A, B>(f: A -> B, s: LockState<A>)
    ensures Promote(NamedState(f, s)) == NamedState(f, Promote(s))
    decreases |s.waiters|
  {
    hide Watermark;
    if s.waiters != [] && Compatible(s.dlm, s.waiters[0].mode) {
      var owners := s.owners + [s.waiters[0]];
      NamedPush(f, s.owners, s.waiters[0]);
      SameWatermark(f, owners);
      assert AllNamed(f, s.waiters)[1..] == AllNamed(f, s.waiters[1..]);
      PromoteNamed(f, LockState(Watermark(owners), owners, s.waiters[1..]));
    }
  }

  lemma NamedWithout<A, B>(f: A -> B, reqs: seq<Request<A>>, i: nat)
    requires i < |reqs|
    ensures AllNamed(f, WithoutAt(reqs, i)) == WithoutAt(AllNamed(f, reqs), i)
  {
  }

  lemma ReleaseNamed<A, B>(f: A -> B, s: LockState<A>, tid: nat)
    ensures ReleaseStep(NamedState(f, s), tid) == NamedState(f, ReleaseStep(s, tid))
  {
    hide Promote, Watermark, WithoutAt;
    SameTids(f, s.owners, tid);
    var i := IndexOf(s.owners, tid);
    if i < |s.owners| {
      var owners := WithoutAt(s.owners, i);
      NamedWithout(f, s.owners, i);
      SameWatermark(f, owners);
      PromoteNamed(f, LockState(Watermark(owners), owners, s.waiters));
    } else {
      PromoteNamed(f, s);
    }
  }

  lemma PromotedNamed<A, B>(f: A -> B, s: LockState<A>, s': LockState<A>)
    ensures Actions(Promoted(NamedState(f, s), NamedState(f, s'))) == NamedActions(f, Actions(Promoted(s, s')))
  {
  }

  // ---------------------------------------------------------------------------
  // The lock table
  // ---------------------------------------------------------------------------

  lemma KeyAcquireNamed<K, A, B>(f: A -> B, t: Table<K, A>, r: KeyRequest<K, A>)
    ensures var named := KeyRequest(r.key, Named(f, r.req));
            && KeyAcquire(NamedTable(f, t), named).0 == NamedTable(f, KeyAcquire(t, r).0)
            && KeyAcquire(NamedTable(f, t), named).1 == KeyAcquire(t, r).1
  {
    hide AcquireStep;
    AcquireNamed(f, Lookup(t, r.key), r.req);
    assert Lookup(NamedTable(f, t), r.key) == NamedState(f, Lookup(t, r.key));
  }

  /** acquire_all commutes with renaming. */
  lemma {:induction false} AcquireAllNamed<K, A, B>(f: A -> B, t: Table<K, A>, reqs: seq<KeyRequest<K, A>>)
    ensures AcquireAll(NamedTable(f, t), NamedRequests(f, reqs)).0 == NamedTable(f, AcquireAll(t, reqs).0)
    ensures AcquireAll(NamedTable(f, t), NamedRequests(f, reqs)).1 == AcquireAll(t, reqs).1
    decreases |reqs|
  {
    hide KeyAcquire, NamedTable;
    if reqs != [] {
      KeyAcquireNamed(f, t, reqs[0]);
      assert NamedRequests(f, reqs)[1..] == NamedRequests(f, reqs[1..]);
      AcquireAllNamed(f, KeyAcquire(t, reqs[0]).0, reqs[1..]);
    }
  }

  lemma NamedConcat<A, B>(f: A -> B, x: seq<A>, y: seq<A>)
    ensures NamedActions(f, x + y) == NamedActions(f, x) + NamedActions(f, y)
  {
  }

  lemma KeyReleaseNamed<K, A, B>(f: A -> B, t: Table<K, A>, k: K, tid: nat)
    requires k in t
    ensures k in NamedTable(f, t) && KeyRelease(NamedTable(f, t), k, tid) == NamedTable(f, KeyRelease(t, k, tid))
    ensures Actions(Promoted(NamedTable(f, t)[k], KeyRelease(NamedTable(f, t), k, tid)[k])) ==
              NamedActions(f, Actions(Promoted(t[k], KeyRelease(t, k, tid)[k])))
  {
    hide ReleaseStep, Promoted;
    ReleaseNamed(f, t[k], tid);
    PromotedNamed(f, t[k], ReleaseStep(t[k], tid));
  }

  /** The first half of release_all commutes with renaming. */
  lemma {:induction false} ReleaseKeysNamed<K, A, B>(f: A -> B, t: Table<K, A>, keys: seq<K>, tid: nat)
    requires forall i :: 0 <= i < |keys| ==> keys[i] in t
    ensures NamedTable(f, t).Keys == t.Keys
    ensures ReleaseKeys(NamedTable(f, t), keys, tid).0 == NamedTable(f, ReleaseKeys(t, keys, tid).0)
    ensures ReleaseKeys(NamedTable(f, t), keys, tid).1 == NamedActions(f, ReleaseKeys(t, keys, tid).1)
    decreases |keys|
  {
    hide ReleaseStep, Promoted;
    assert NamedTable(f, t).Keys == t.Keys;
    if keys != [] {
      KeyReleaseNamed(f, t, keys[0], tid);
      var t1 := KeyRelease(t, keys[0], tid);
      ReleaseKeysNamed(f, t1, keys[1..], tid);
      NamedConcat(f, Actions(Promoted(t[keys[0]], t1[keys[0]])), ReleaseKeys(t1, keys[1..], tid).1);
    }
  }

  // The counters of the renamed actions; no two actions get one name
  ghost predicate SameCounters<A, B>(f: A -> B, needed: map<A, int>, named: map<B, int>) {
    && (forall a :: a in needed ==> f(a) in named && named[f(a)] == needed[a])
    && (forall b :: b in named ==> exists a :: a in needed && f(a) == b)
    && (forall a, b :: a in needed && b in needed && f(a) == f(b) ==> a == b)
  }

  lemma SameCountersStep<A, B>(f: A -> B, needed: map<A, int>, named: map<B, int>, a: A, n: int)
    requires SameCounters(f, needed, named) && a in needed
    ensures SameCounters(f, needed[a := n], named[f(a) := n])
  {
    var needed', named' := needed[a := n], named[f(a) := n];
    forall b | b in named' ensures exists c :: c in needed' && f(c) == b {
      var c :| c in needed && f(c) == b;
      assert c in needed';
    }
  }

  ghost predicate AllKnown<A>(needed: map<A, int>, actions: seq<A>) {
    forall i :: 0 <= i < |actions| ==> actions[i] in needed
  }

  // The first promotion, and the rest
  lemma WakeFirst<A>(needed: map<A, int>, promoted: seq<A>)
    requires AllKnown(needed, promoted) && promoted != []
    ensures var a, n := promoted[0], needed[promoted[0]] - 1;
            && AllKnown(needed[a := n], promoted[1..])
            && (CanWake(needed, promoted) <==> n >= 0 && CanWake(needed[a := n], promoted[1..]))
            && Wake(needed, promoted).0 == Wake(needed[a := n], promoted[1..]).0
            && Wake(needed, promoted).1 == (if n == 0 then [a] else []) + Wake(needed[a := n], promoted[1..]).1
  {
  }

  lemma WakeNone<A>(needed: map<A, int>)
    ensures Wake(needed, []) == (needed, []) && CanWake(needed, [])
  {
  }

  /** The second half of release_all commutes with renaming, and so does what it asserts. */
  lemma {:induction false} WakeNamed<A, B>(f: A -> B, needed: map<A, int>, named: map<B, int>, promoted: seq<A>)
    requires SameCounters(f, needed, named) && AllKnown(needed, promoted)
    ensures AllKnown(named, NamedActions(f, promoted))
    ensures CanWake(needed, promoted) <==> CanWake(named, NamedActions(f, promoted))
    ensures SameCounters(f, Wake(needed, promoted).0, Wake(named, NamedActions(f, promoted)).0)
    ensures Wake(named, NamedActions(f, promoted)).1 == NamedActions(f, Wake(needed, promoted).1)
    decreases |promoted|
  {
    hide SameCounters, Wake, CanWake;
    AllNamedKnown(f, needed, named, promoted);
    if promoted == [] {
      WakeNone(needed);
      WakeNone(named);
    } else {
      var a, n := promoted[0], needed[promoted[0]] - 1;
      WakeFirst(needed, promoted);
      WakeFirst(named, NamedActions(f, promoted));
      CounterOf(f, needed, named, a);
      SameCountersStep(f, needed, named, a, n);
      assert NamedActions(f, promoted)[1..] == NamedActions(f, promoted[1..]);
      WakeNamed(f, needed[a := n], named[f(a) := n], promoted[1..]);
      NamedConcat(f, if n == 0 then [a] else [], Wake(needed[a := n], promoted[1..]).1);
    }
  }

  lemma CounterOf<A, B>(f: A -> B, needed: map<A, int>, named: map<B, int>, a: A)
    requires SameCounters(f, needed, named) && a in needed
    ensures f(a) in named && named[f(a)] == needed[a]
  {
  }

  lemma AllNamedKnown<A, B>(f: A -> B, needed: map<A, int>, named: map<B, int>, actions: seq<A>)
    requires SameCounters(f, needed, named) && AllKnown(needed, actions)
    ensures AllKnown(named, NamedActions(f, actions))
  {
  }

  // ---------------------------------------------------------------------------
  // Who can be promoted
  // ---------------------------------------------------------------------------

  // Whoever waits has a counter
  ghost predicate WaitersKnown<K, A>(t: Table<K, A>, needed: map<A, int>) {
    forall k :: k in t ==> AllKnown(needed, Actions(t[k].waiters))
  }

  lemma {:induction false} PromoteTakesHead<A>(s: LockState<A>)
    ensures |Promote(s).waiters| <= |s.waiters|
    ensures Promote(s).waiters == s.waiters[|s.waiters| - |Promote(s).waiters|..]
    decreases |s.waiters|
  {
    hide Watermark;
    if s.waiters != [] && Compatible(s.dlm, s.waiters[0].mode) {
      var owners := s.owners + [s.waiters[0]];
      PromoteTakesHead(LockState(Watermark(owners), owners, s.waiters[1..]));
    }
  }

  lemma ReleaseTakesHead<A>(s: LockState<A>, tid: nat)
    ensures var s' := ReleaseStep(s, tid);
            |s'.waiters| <= |s.waiters| && s'.waiters == s.waiters[|s.waiters| - |s'.waiters|..]
  {
    hide Watermark, WithoutAt;
    var i := IndexOf(s.owners, tid);
    if i < |s.owners| {
      var owners := WithoutAt(s.owners, i);
      PromoteTakesHead(LockState(Watermark(owners), owners, s.waiters));
    } else {
      PromoteTakesHead(s);
    }
  }

  lemma KeyReleaseKnown<K, A>(t: Table<K, A>, needed: map<A, int>, k: K, tid: nat)
    requires k in t && WaitersKnown(t, needed)
    ensures var t1 := KeyRelease(t, k, tid);
            AllKnown(needed, Actions(Promoted(t[k], t1[k]))) && WaitersKnown(t1, needed)
  {
    hide ReleaseStep;
    ReleaseTakesHead(t[k], tid);
    var s, s' := t[k], ReleaseStep(t[k], tid);
    var n := |s.waiters| - |s'.waiters|;
    assert AllKnown(needed, Actions(s.waiters));
    assert forall i :: 0 <= i < n ==> Actions(Promoted(s, s'))[i] == Actions(s.waiters)[i];
    assert forall i :: 0 <= i < |s'.waiters| ==> Actions(s'.waiters)[i] == Actions(s.waiters)[i + n];
  }

  lemma {:induction false} PromotedAreKnown<K, A>(t: Table<K, A>, needed: map<A, int>, keys: seq<K>, tid: nat)
    requires (forall i :: 0 <= i < |keys| ==> keys[i] in t) && WaitersKnown(t, needed)
    ensures AllKnown(needed, ReleaseKeys(t, keys, tid).1) && WaitersKnown(ReleaseKeys(t, keys, tid).0, needed)
    decreases |keys|
  {
    hide ReleaseStep, WaitersKnown, Promoted;
    if keys != [] {
      KeyReleaseKnown(t, needed, keys[0], tid);
      PromotedAreKnown(KeyRelease(t, keys[0], tid), needed, keys[1..], tid);
    }
  }
}
