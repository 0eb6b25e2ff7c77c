/** What the lock table of a partition means: an action may run exactly when it conflicts
    with no earlier action of the partition that has not been released yet.

    `order` is the sequence of acquired and unreleased actions, in the order in which the
    worker acquired for them.  The table, the cached modes, the owner and waiter lists and
    the key counters are all determined by it. */
module LockOrder {
  import opened KeyWrappers
  import opened LockModes
  import opened LogicalLocks
  import opened LockTables
  import opened Sequences

  // The part of an action that never changes
  datatype Action = Action(id: nat, tid: nat, part: nat, phase: nat, keys: seq<Key>, readOnly: bool)

  type LockTable = Table<Key, Action>

  function ModeOf(a: Action): LockMode { if a.readOnly then Shared else Excl }

  function RequestOf(a: Action): Request<Action> { Request(a, a.tid, ModeOf(a)) }

  predicate Conflict(a: Action, b: Action, k: Key) {
    k in a.keys && k in b.keys && !(a.readOnly && b.readOnly)
  }

  // The line of one key
  function OrderLine(order: seq<Action>, k: Key): seq<Request<Action>> {
    if order == [] then []
    else
      var last := order[|order| - 1];
      OrderLine(order[..|order| - 1], k) + (if k in last.keys then [RequestOf(last)] else [])
  }

  // Two actions of one transaction never ask for the same key
  ghost predicate WfOrder(order: seq<Action>) {
    && (forall i :: 0 <= i < |order| ==> order[i].keys != [] && NoDup(order[i].keys))
    && (forall i, j, k :: 0 <= i < j < |order| && k in order[i].keys && k in order[j].keys
                          ==> order[i].tid != order[j].tid)
  }

  ghost predicate TableIs(t: LockTable, order: seq<Action>) {
    && (forall k :: Lookup(t, k) == StateOf(OrderLine(order, k)))
    && (forall i, k :: 0 <= i < |order| && k in order[i].keys ==> k in t)
  }

  // An earlier action of `before` holds or wants the key in a conflicting mode
  ghost predicate Blocked(before: seq<Action>, a: Action, k: Key) {
    exists j :: 0 <= j < |before| && Conflict(before[j], a, k)
  }

  ghost predicate Runnable(before: seq<Action>, a: Action) {
    forall k :: k in a.keys ==> !Blocked(before, a, k)
  }

  lemma {:induction false} LineOfConcat(x: seq<Action>, y: seq<Action>, k: Key)
    ensures OrderLine(x + y, k) == OrderLine(x, k) + OrderLine(y, k)
    decreases |y|
  {
    if y == [] {
      assert x + y == x;
    } else {
      var y0 := y[..|y| - 1];
      assert (x + y)[..|x + y| - 1] == x + y0;
      LineOfConcat(x, y0, k);
    }
  }

  lemma LineOfOne(a: Action, k: Key)
    ensures OrderLine([a], k) == if k in a.keys then [RequestOf(a)] else []
  {
    assert [a][..0] == [];
  }

  lemma LineOfAppend(order: seq<Action>, a: Action, k: Key)
    ensures OrderLine(order + [a], k) == OrderLine(order, k) + if k in a.keys then [RequestOf(a)] else []
  {
    LineOfConcat(order, [a], k);
    LineOfOne(a, k);
  }

  // Where the request of order[p] sits in the line of one of its keys
  lemma LineAt(order: seq<Action>, p: nat, k: Key)
    requires p < |order| && k in order[p].keys
    ensures var line := OrderLine(order, k); var i := |OrderLine(order[..p], k)|;
            && i < |line| && line[..i] == OrderLine(order[..p], k) && line[i] == RequestOf(order[p])
            && line[i + 1..] == OrderLine(order[p + 1..], k)
  {
    hide OrderLine;
    assert order == order[..p] + ([order[p]] + order[p + 1..]);
    LineOfConcat(order[..p], [order[p]] + order[p + 1..], k);
    LineOfConcat([order[p]], order[p + 1..], k);
    LineOfOne(order[p], k);
    Around(OrderLine(order[..p], k), RequestOf(order[p]), OrderLine(order[p + 1..], k));
  }

  // Every request in a line is the request of some action of the order, in order
  lemma {:induction false} LineElement(order: seq<Action>, k: Key, i: nat) returns (p: nat)
    requires i < |OrderLine(order, k)|
    ensures p < |order| && k in order[p].keys
    ensures i == |OrderLine(order[..p], k)| && OrderLine(order, k)[i] == RequestOf(order[p])
    decreases |order|
  {
    var init := order[..|order| - 1];
    if i < |OrderLine(init, k)| {
      p := LineElement(init, k, i);
      assert init[..p] == order[..p];
    } else {
      p := |order| - 1;
    }
  }

  lemma {:induction false} LineElementMonotone(order: seq<Action>, p: nat, q: nat, k: Key)
    requires p <= q <= |order|
    ensures |OrderLine(order[..p], k)| <= |OrderLine(order[..q], k)|
    ensures p < q && k in order[p].keys ==> |OrderLine(order[..p], k)| < |OrderLine(order[..q], k)|
  {
    assert order[..q] == order[..p] + order[p..q];
    LineOfConcat(order[..p], order[p..q], k);
    if p < q && k in order[p].keys {
      LineAt(order[p..q], 0, k);
    }
  }

  /** A well-formed order gives well-formed lines: one request for each transaction. */
  lemma LineIsWf(order: seq<Action>, k: Key)
    requires WfOrder(order)
    ensures RealModes(OrderLine(order, k)) && DistinctTids(OrderLine(order, k))
  {
    var line := OrderLine(order, k);
    forall i | 0 <= i < |line| ensures line[i].mode != NoLock {
      var _ := LineElement(order, k, i);
    }
    forall i, j | 0 <= i < j < |line| ensures line[i].tid != line[j].tid {
      var p := LineElement(order, k, i);
      var q := LineElement(order, k, j);
      if q < p { LineElementMonotone(order, q, p, k); }
    }
  }

  /** The lock state of a key is granted to an action exactly when nobody ahead of it in the
      order conflicts with it on that key. */
  lemma GrantedIffNotBlocked(order: seq<Action>, p: nat, k: Key)
    requires WfOrder(order) && p < |order| && k in order[p].keys
    ensures var i := |OrderLine(order[..p], k)|;
            && i < |OrderLine(order, k)|
            && (i < GrantCount(OrderLine(order, k)) <==> !Blocked(order[..p], order[p], k))
  {
    var line := OrderLine(order, k);
    var i := |OrderLine(order[..p], k)|;
    LineAt(order, p, k);
    LineIsWf(order, k);
    GrantedIffInHeadRun(line, i);
    if Blocked(order[..p], order[p], k) {
      var j :| 0 <= j < p && Conflict(order[j], order[p], k);
      LineAt(order[..p], j, k);
      var m := |OrderLine(order[..p][..j], k)|;
      assert line[m] == line[..i][m] == RequestOf(order[j]);
      assert !Compatible(line[m].mode, line[i].mode);
    } else {
      forall m | 0 <= m < i ensures Compatible(line[m].mode, line[i].mode) {
        var j := LineElement(order[..p], k, m);
        assert line[m] == line[..i][m];
        assert !Conflict(order[..p][j], order[p], k);
      }
    }
  }

  // ---------------------------------------------------------------------------
  // Lock steps on canonical states
  // ---------------------------------------------------------------------------

  lemma HasTidInParts<A>(x: seq<Request<A>>, y: seq<Request<A>>, tid: nat)
    ensures HasTid(x + y, tid) <==> HasTid(x, tid) || HasTid(y, tid)
  {
    if HasTid(x, tid) {
      var i :| 0 <= i < |x| && x[i].tid == tid;
      assert (x + y)[i].tid == tid;
    }
    if HasTid(y, tid) {
      var i :| 0 <= i < |y| && y[i].tid == tid;
      assert (x + y)[|x| + i].tid == tid;
    }
  }

  lemma AcquireOnLine<A>(line: seq<Request<A>>, r: Request<A>)
    requires RealModes(line) && r.mode != NoLock && !HasTid(line, r.tid)
    ensures !HasTid(StateOf(line).owners, r.tid) && !HasTid(StateOf(line).waiters, r.tid)
    ensures AcquireStep(StateOf(line), r).0 == StateOf(line + [r])
    ensures AcquireStep(StateOf(line), r).1 <==> |line| < GrantCount(line + [r])
  {
    var s := StateOf(line);
    StateOfIsCanonical(line);
    HasTidInParts(s.owners, s.waiters, r.tid);
    AcquireJoinsLine(s, r);
    var s' := AcquireStep(s, r).0;
    InvIsCanonical(s');
    assert s'.owners != [] ==> s'.owners[0].mode == s'.dlm by { ModeInvIffShape(s'); InvIsCanonical(s); }
    CanonicalWithoutUpgrade(s');
    GrantedIffInHeadRun(line + [r], |line|);
  }

  lemma ReleaseOnLine<A>(line: seq<Request<A>>, i: nat)
    requires RealModes(line) && DistinctTids(line) && i < GrantCount(line)
    ensures HasTid(StateOf(line).owners, line[i].tid)
    ensures ReleaseStep(StateOf(line), line[i].tid) == StateOf(WithoutAt(line, i))
  {
    var s := StateOf(line);
    StateOfIsCanonical(line);
    assert s.owners[i] == line[i];
    ReleaseIsCanonical(s, line[i].tid);
    var j := IndexOf(s.owners, line[i].tid);
    assert s.owners[j] == line[j];
    assert j == i;
    assert WithoutAt(s.owners, i) + s.waiters == WithoutAt(s.owners + s.waiters, i);
  }

  // ---------------------------------------------------------------------------
  // Acquiring: the action joins the end of the order
  // ---------------------------------------------------------------------------

  // The requests of a on the keys still to be asked for, given that the table already
  // holds those on the other keys
  ghost predicate HalfAcquired(t: LockTable, order: seq<Action>, a: Action, todo: seq<Key>) {
    && (forall k :: Lookup(t, k) == StateOf(OrderLine(if k in todo then order else order + [a], k)))
    && (forall i, k :: 0 <= i < |order| && k in order[i].keys ==> k in t)
    && (forall k :: k in a.keys && k !in todo ==> k in t)
  }

  // The number of keys in a list on which nobody earlier conflicts
  ghost function FreeKeys(order: seq<Action>, a: Action, keys: seq<Key>): nat {
    if keys == [] then 0
    else (if Blocked(order, a, keys[0]) then 0 else 1) + FreeKeys(order, a, keys[1..])
  }

  lemma TidNotInLine(order: seq<Action>, a: Action, k: Key)
    requires WfOrder(order + [a]) && k in a.keys
    ensures WfOrder(order) && !HasTid(OrderLine(order, k), a.tid)
  {
    assert forall i :: 0 <= i < |order| ==> (order + [a])[i] == order[i];
    assert (order + [a])[|order|] == a;
    if HasTid(OrderLine(order, k), a.tid) {
      var i :| 0 <= i < |OrderLine(order, k)| && OrderLine(order, k)[i].tid == a.tid;
      var p := LineElement(order, k, i);
    }
  }

  // Asking for one more key, seen on the line of that key alone
  lemma JoinLine(order: seq<Action>, a: Action, k: Key)
    requires WfOrder(order + [a]) && k in a.keys
    ensures var (s, ok) := AcquireStep(StateOf(OrderLine(order, k)), RequestOf(a));
            s == StateOf(OrderLine(order + [a], k)) && (ok <==> !Blocked(order, a, k))
  {
    var line := OrderLine(order, k);
    TidNotInLine(order, a, k);
    LineIsWf(order, k);
    AcquireOnLine(line, RequestOf(a));
    LineOfAppend(order, a, k);
    var p := |order|;
    assert (order + [a])[p] == a && (order + [a])[..p] == order;
    GrantedIffNotBlocked(order + [a], p, k);
  }

  lemma JoinOneKey(t: LockTable, order: seq<Action>, a: Action, todo: seq<Key>)
    requires WfOrder(order + [a]) && todo != [] && NoDup(todo) && todo[0] in a.keys
    requires HalfAcquired(t, order, a, todo)
    ensures var (t1, ok) := KeyAcquire(t, KeyRequest(todo[0], RequestOf(a)));
            && HalfAcquired(t1, order, a, todo[1..])
            && (ok <==> !Blocked(order, a, todo[0]))
  {
    JoinLine(order, a, todo[0]);
    JoinTable(t, order, a, todo, StateOf(OrderLine(order + [a], todo[0])));
  }

  lemma JoinTable(t: LockTable, order: seq<Action>, a: Action, todo: seq<Key>, s: LockState<Action>)
    requires todo != [] && NoDup(todo) && todo[0] in a.keys
    requires HalfAcquired(t, order, a, todo) && s == StateOf(OrderLine(order + [a], todo[0]))
    ensures HalfAcquired(t[todo[0] := s], order, a, todo[1..])
  {
    var k0 := todo[0];
    TailOf(todo);
    var t1 := t[k0 := s];
    forall k ensures Lookup(t1, k) == StateOf(OrderLine(if k in todo[1..] then order else order + [a], k)) {
      if k != k0 { assert Lookup(t1, k) == Lookup(t, k); }
    }
  }

  /** acquire_all refines joining the order: the table becomes the table of the longer
      order, and the keys acquired are those on which no earlier action conflicts. */
  lemma {:induction false} AcquireAllJoins(t: LockTable, order: seq<Action>, a: Action, todo: seq<Key>)
    requires WfOrder(order + [a]) && NoDup(todo) && (forall k :: k in todo ==> k in a.keys)
    requires HalfAcquired(t, order, a, todo)
    ensures var (t', n) := AcquireAll(t, RequestsOf(todo, RequestOf(a)));
            HalfAcquired(t', order, a, []) && n == FreeKeys(order, a, todo)
    decreases |todo|
  {
    hide WfOrder, OrderLine, StateOf, Blocked;
    if todo != [] {
      JoinOneKey(t, order, a, todo);
      var r := RequestOf(a);
      assert RequestsOf(todo, r)[0] == KeyRequest(todo[0], r);
      assert RequestsOf(todo, r)[1..] == RequestsOf(todo[1..], r);
      AcquireAllJoins(KeyAcquire(t, KeyRequest(todo[0], r)).0, order, a, todo[1..]);
    }
  }

  lemma JoinOrder(t: LockTable, order: seq<Action>, a: Action)
    requires TableIs(t, order) && WfOrder(order + [a])
    ensures var (t', n) := AcquireAll(t, RequestsOf(a.keys, RequestOf(a)));
            TableIs(t', order + [a]) && n == FreeKeys(order, a, a.keys)
  {
    assert (order + [a])[|order|] == a && a.keys != [] && NoDup(a.keys);
    hide WfOrder, OrderLine, StateOf, TableIs, HalfAcquired;
    JoinStarts(t, order, a);
    AcquireAllJoins(t, order, a, a.keys);
    JoinEnds(AcquireAll(t, RequestsOf(a.keys, RequestOf(a))).0, order, a);
  }

  lemma JoinStarts(t: LockTable, order: seq<Action>, a: Action)
    requires TableIs(t, order)
    ensures HalfAcquired(t, order, a, a.keys)
  {
    forall k ensures k !in a.keys ==> OrderLine(order + [a], k) == OrderLine(order, k) {
      LineOfAppend(order, a, k);
    }
  }

  lemma JoinEnds(t: LockTable, order: seq<Action>, a: Action)
    requires HalfAcquired(t, order, a, [])
    ensures TableIs(t, order + [a])
  {
    forall i, k | 0 <= i < |order + [a]| && k in (order + [a])[i].keys ensures k in t {
      assert i < |order| ==> (order + [a])[i] == order[i];
    }
  }

  // ---------------------------------------------------------------------------
  // Releasing: the action leaves the order
  // ---------------------------------------------------------------------------

  ghost predicate HalfReleased(t: LockTable, order: seq<Action>, p: nat, todo: seq<Key>)
    requires p < |order|
  {
    && (forall k :: Lookup(t, k) == StateOf(OrderLine(if k in todo then order else WithoutAt(order, p), k)))
    && (forall i, k :: 0 <= i < |order| && k in order[i].keys ==> k in t)
  }

  lemma LineOfWithout(order: seq<Action>, p: nat, k: Key)
    requires p < |order|
    ensures k !in order[p].keys ==> OrderLine(WithoutAt(order, p), k) == OrderLine(order, k)
    ensures k in order[p].keys ==>
              && |OrderLine(order[..p], k)| < |OrderLine(order, k)|
              && OrderLine(WithoutAt(order, p), k) == WithoutAt(OrderLine(order, k), |OrderLine(order[..p], k)|)
  {
    LineOfConcat(order[..p], order[p + 1..], k);
    if k in order[p].keys {
      LineAt(order, p, k);
    } else {
      LineSkips(order, p, k);
    }
  }

  lemma LineSkips(order: seq<Action>, p: nat, k: Key)
    requires p < |order| && k !in order[p].keys
    ensures OrderLine(order, k) == OrderLine(order[..p], k) + OrderLine(order[p + 1..], k)
  {
    assert order == (order[..p] + [order[p]]) + order[p + 1..];
    LineOfConcat(order[..p] + [order[p]], order[p + 1..], k);
    LineOfAppend(order[..p], order[p], k);
  }

  lemma LeaveOneKey(t: LockTable, order: seq<Action>, p: nat, todo: seq<Key>)
    requires WfOrder(order) && p < |order| && Runnable(order[..p], order[p])
    requires todo != [] && NoDup(todo) && todo[0] in order[p].keys
    requires HalfReleased(t, order, p, todo)
    ensures todo[0] in t && HasTid(t[todo[0]].owners, order[p].tid)
    ensures HalfReleased(KeyRelease(t, todo[0], order[p].tid), order, p, todo[1..])
  {
    var k0 := todo[0];
    GrantedIffNotBlocked(order, p, k0);
    LineIsWf(order, k0);
    LineAt(order, p, k0);
    ReleaseOnLine(OrderLine(order, k0), |OrderLine(order[..p], k0)|);
    LineOfWithout(order, p, k0);
    TailOf(todo);
    assert k0 in t && t[k0] == Lookup(t, k0) == StateOf(OrderLine(order, k0));
    var t1 := KeyRelease(t, k0, order[p].tid);
    forall k ensures Lookup(t1, k) == StateOf(OrderLine(if k in todo[1..] then order else WithoutAt(order, p), k)) {
      if k != k0 { assert Lookup(t1, k) == Lookup(t, k); }
    }
  }

  /** release_all refines leaving the order. */
  lemma {:induction false} ReleaseKeysLeaves(t: LockTable, order: seq<Action>, p: nat, todo: seq<Key>)
    requires WfOrder(order) && p < |order| && Runnable(order[..p], order[p])
    requires NoDup(todo) && (forall k :: k in todo ==> k in order[p].keys)
    requires HalfReleased(t, order, p, todo)
    ensures OwnsAll(t, todo, order[p].tid)
    ensures HalfReleased(ReleaseKeys(t, todo, order[p].tid).0, order, p, [])
    decreases |todo|
  {
    if todo != [] {
      LeaveOneKey(t, order, p, todo);
      var t1 := KeyRelease(t, todo[0], order[p].tid);
      ReleaseKeysLeaves(t1, order, p, todo[1..]);
      assert OwnsAll(t, todo, order[p].tid) by {
        forall i | 0 <= i < |todo| ensures todo[i] in t && HasTid(t[todo[i]].owners, order[p].tid) {
          if i > 0 { assert todo[1..][i - 1] == todo[i]; }
        }
      }
    }
  }

  lemma LeaveOrder(t: LockTable, order: seq<Action>, p: nat)
    requires TableIs(t, order) && WfOrder(order) && p < |order| && Runnable(order[..p], order[p])
    ensures OwnsAll(t, order[p].keys, order[p].tid)
    ensures TableIs(ReleaseKeys(t, order[p].keys, order[p].tid).0, WithoutAt(order, p))
  {
    forall k ensures k !in order[p].keys ==> OrderLine(WithoutAt(order, p), k) == OrderLine(order, k) {
      LineOfWithout(order, p, k);
    }
    ReleaseKeysLeaves(t, order, p, order[p].keys);
    var t' := ReleaseKeys(t, order[p].keys, order[p].tid).0;
    var left := WithoutAt(order, p);
    forall i, k | 0 <= i < |left| && k in left[i].keys ensures k in t' {
      assert left[i] == order[if i < p then i else i + 1];
    }
  }

  lemma WfOrderWithout(order: seq<Action>, p: nat)
    requires WfOrder(order) && p < |order|
    ensures WfOrder(WithoutAt(order, p))
  {
    var left := WithoutAt(order, p);
    assert forall i :: 0 <= i < |left| ==> left[i] == order[if i < p then i else i + 1];
  }

  // ---------------------------------------------------------------------------
  // Readiness
  // ---------------------------------------------------------------------------

  lemma WaitsIffBlocked(t: LockTable, order: seq<Action>, p: nat, k: Key)
    requires TableIs(t, order) && WfOrder(order) && p < |order| && k in order[p].keys
    ensures WaitEntries(Lookup(t, k), order[p]) == if Blocked(order[..p], order[p], k) then 1 else 0
  {
    var line := OrderLine(order, k);
    var i := |OrderLine(order[..p], k)|;
    var g := GrantCount(line);
    GrantedIffNotBlocked(order, p, k);
    LineAt(order, p, k);
    LineIsWf(order, k);
    OneEntry(line[g..], order[p], if i >= g then i - g else |line| - g) by {
      if i >= g { assert line[g..][i - g] == line[i]; }
      forall j | 0 <= j < |line[g..]| && line[g..][j].action == order[p] ensures j == i - g {
        assert line[g..][j] == line[g + j];
        var q := LineElement(order, k, g + j);
      }
    }
  }

  lemma {:induction false} OneEntry<A>(reqs: seq<Request<A>>, a: A, i: nat)
    requires forall j :: 0 <= j < |reqs| && reqs[j].action == a ==> j == i
    requires i < |reqs| ==> reqs[i].action == a
    ensures multiset(Actions(reqs))[a] == if i < |reqs| then 1 else 0
    decreases |reqs|
  {
    if reqs != [] {
      var n := |reqs| - 1;
      var init := reqs[..n];
      assert reqs == init + [reqs[n]];
      ActionsAppend(init, reqs[n]);
      OneEntry(init, a, i);
    }
  }

  /** The key counter of an action is the number of its keys on which an earlier unreleased
      action conflicts; it is ready exactly when there is none. */
  lemma {:induction false} MissingIsBlocked(t: LockTable, order: seq<Action>, p: nat, keys: seq<Key>)
    requires TableIs(t, order) && WfOrder(order) && p < |order|
    requires forall k :: k in keys ==> k in order[p].keys
    ensures Missing(t, keys, order[p]) == |keys| - FreeKeys(order[..p], order[p], keys)
    ensures Missing(t, keys, order[p]) == 0 <==> forall k :: k in keys ==> !Blocked(order[..p], order[p], k)
    decreases |keys|
  {
    if keys != [] {
      WaitsIffBlocked(t, order, p, keys[0]);
      MissingIsBlocked(t, order, p, keys[1..]);
      if Missing(t, keys, order[p]) == 0 {
        forall k | k in keys ensures !Blocked(order[..p], order[p], k) {
          assert k == keys[0] || k in keys[1..];
        }
      }
    }
  }

  /** Once runnable, always runnable: joins come behind, and leaving unblocks. */
  lemma RunnableStays(order: seq<Action>, q: nat, a: Action, p: nat)
    requires q <= |order| && p < |order| && Runnable(order[..q], a)
    ensures p < q ==> Runnable(WithoutAt(order, p)[..q - 1], a)
    ensures p >= q ==> Runnable(WithoutAt(order, p)[..q], a)
  {
    var left := WithoutAt(order, p);
    var before := left[..if p < q then q - 1 else q];
    forall k | k in a.keys ensures !Blocked(before, a, k) {
      forall j | 0 <= j < |before| ensures !Conflict(before[j], a, k) {
        assert before[j] == order[..q][if j < p then j else j + 1];
      }
    }
  }

  /** No two actions of a partition that may run at the same time conflict. */
  lemma RunnableNeverConflict(order: seq<Action>, p: nat, q: nat, k: Key)
    requires p < q < |order| && Runnable(order[..q], order[q])
    ensures !Conflict(order[p], order[q], k)
  {
    assert order[..q][p] == order[p];
  }

  /** Partition-local deadlock freedom: the oldest unreleased action always owns all its keys,
      and whoever waits, waits for an earlier action. */
  lemma OldestOwnsAll(t: LockTable, order: seq<Action>)
    requires TableIs(t, order) && WfOrder(order) && order != []
    ensures OwnsAll(t, order[0].keys, order[0].tid) && Missing(t, order[0].keys, order[0]) == 0
    ensures forall q, k :: 0 <= q < |order| && k in order[q].keys && WaitEntries(Lookup(t, k), order[q]) > 0 ==>
              exists p :: 0 <= p < q && Conflict(order[p], order[q], k)
  {
    assert order[..0] == [];
    LeaveOrder(t, order, 0);
    MissingIsBlocked(t, order, 0, order[0].keys);
    forall q, k | 0 <= q < |order| && k in order[q].keys && WaitEntries(Lookup(t, k), order[q]) > 0
      ensures exists p :: 0 <= p < q && Conflict(order[p], order[q], k)
    {
      WaitsIffBlocked(t, order, q, k);
      var p :| 0 <= p < q && Conflict(order[..q][p], order[q], k);
      assert Conflict(order[p], order[q], k);
    }
  }
}
