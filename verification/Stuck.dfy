/** When the system comes to a stop: the only thing that can keep an undecided transaction from
    going on is a lock that another unfinished transaction holds in the same partition; and
    what the environment may do, it may do at any time. */
module ProtocolStuck {
  import opened KeyWrappers
  import opened LockTables
  import opened LockOrder
  import opened Sequences
  import opened Partitions
  import opened Transactions
  import opened SerialData
  import opened Protocol
  import opened ProtocolRuns

  // A worker looks at empty queues, a client starts something new, or the log grows
  ghost predicate IsIdle(s: Sys, step: Step) {
    || step.Begin? || step.Harden?
    || (step.PopNothing? && step.p in s.parts && s.parts[step.p].committed == [])
    || (step.ToInput? && step.p in s.parts && s.parts[step.p].input == [])
  }

  // Nothing but that can happen
  ghost predicate Stuck(s: Sys) { forall step :: Guard(s, step) ==> IsIdle(s, step) }

  // A transaction that is not through with its last rendezvous point, or waits for the log
  ghost predicate Unfinished(s: Sys, u: nat) {
    && u in s.txs
    && (s.txs[u].mode == Gathering || (s.txs[u].mode.Flushing? && s.durable <= s.txs[u].mode.lsn))
  }

  // Action a waits in its partition for an earlier action b of another transaction
  ghost predicate WaitsFor(s: Sys, a: Action, b: Action) {
    && a.part in s.parts && b.part == a.part && b.tid != a.tid
    && At(s.parts[a.part].place, a, Waiting)
    && exists i, j, k :: 0 <= i < j < |s.parts[a.part].order|
         && s.parts[a.part].order[i] == b && s.parts[a.part].order[j] == a && Conflict(b, a, k)
  }

  // A worker of a stuck system has nothing in its hands and nothing in its queues
  lemma StuckWorker(s: Sys, p: nat)
    requires Stuck(s) && p in s.parts
    ensures s.parts[p].input == [] && s.parts[p].committed == [] && s.parts[p].pc in {Loop, Input}
  {
    hide WfActions, SentToParts;
    var part := s.parts[p];
    assert !Guard(s, DrainOne(p)) && !Guard(s, ServeEnd(p)) && !Guard(s, ServeOne(p)) && !Guard(s, Take(p));
    assert !Guard(s, RunBody(p, map[], false)) && !Guard(s, MarkAbort(p)) && !Guard(s, PostAction(p));
    assert Guard(s, ToInput(p)) ==> IsIdle(s, ToInput(p));
    assert Guard(s, PopNothing(p)) ==> IsIdle(s, PopNothing(p));
  }

  // A key that is in none of these actions
  lemma {:induction false} FreshKey(actions: seq<Action>) returns (k: Key)
    ensures forall a, j :: a in actions && j in a.keys ==> |j.fields| < |k.fields|
  {
    if actions == [] {
      k := Key([]);
    } else {
      var last := |actions| - 1;
      var k1 := FreshKey(actions[..last]);
      var k2 := LongerKey(actions[last].keys);
      k := Key(k1.fields + k2.fields + [0]);
      assert actions == actions[..last] + [actions[last]];
    }
  }

  lemma {:induction false} LongerKey(keys: seq<Key>) returns (k: Key)
    ensures forall j :: j in keys ==> |j.fields| < |k.fields|
  {
    if keys == [] {
      k := Key([]);
    } else {
      var last := |keys| - 1;
      var k1 := LongerKey(keys[..last]);
      k := Key(k1.fields + keys[last].fields + [0]);
      assert keys == keys[..last] + [keys[last]];
    }
  }

  // A midway rendezvous point can always send something more
  lemma MidwayMay(f: Body, init: Store, s: Sys, u: nat) returns (next: seq<Action>)
    requires SysInv(f, init, s) && u in s.txs && s.txs[u].mode == Running && s.txs[u].midways > 0
    ensures Guard(s, Midway(u, next))
  {
    hide PartInv, DataInv, Logged, StageOf;
    assert s.txs[u].actions[0] in s.txs[u].actions && SentOk(s.parts, s.txs[u], s.txs[u].actions[0]);
    var p := s.txs[u].actions[0].part;
    var k := FreshKey(s.txs[u].actions);
    next := [Action(0, u, p, 0, [k], false)];
    OneMoreAction(u, s.txs[u].actions, next[0], k);
    assert forall a :: a in next ==> a == next[0];
  }

  lemma OneMoreAction(u: nat, actions: seq<Action>, a: Action, k: Key)
    requires WfActions(u, actions) && a.tid == u && a.keys == [k]
    requires forall b, j :: b in actions && j in b.keys ==> |j.fields| < |k.fields|
    ensures WfActions(u, actions + [a])
  {
    var all := actions + [a];
    assert forall b :: b in all <==> b in actions || b == a;
    assert k in a.keys && forall j :: j in a.keys ==> j == k;
    assert forall b :: b in actions ==> k !in b.keys && b != a;
    assert NoDup(all) by {
      forall i, j | 0 <= i < j < |all| ensures all[i] != all[j] {
        assert all[i] in actions;
      }
    }
  }

  // So a transaction of a stuck system is at none of the places where it goes on by itself
  lemma StuckTx(f: Body, init: Store, s: Sys, u: nat)
    requires SysInv(f, init, s) && Stuck(s) && u in s.txs
    ensures s.txs[u].toSend == [] && s.txs[u].toNotify == [] && s.txs[u].mode != Running
    ensures s.txs[u].mode.Flushing? ==> s.durable <= s.txs[u].mode.lsn
  {
    hide SysInv, WfActions, SentToParts;
    assert !Guard(s, Send(u)) && !Guard(s, SendHome(u)) && !Guard(s, Terminal(u, true, false, 0));
    assert !Guard(s, Flushed(u));
    if s.txs[u].mode == Running {
      var next := MidwayMay(f, init, s, u);
      assert false;
    }
  }

  // An action that keeps its transaction waiting in a stuck system waits for a lock
  lemma PendingWaits(f: Body, init: Store, s: Sys, a: Action)
    requires SysInv(f, init, s) && Stuck(s) && a.tid in s.txs && a in s.txs[a.tid].pending
    ensures a.part in s.parts && At(s.parts[a.part].place, a, Waiting)
  {
    hide PartInv, DataInv, Logged, Stuck, TxInv;
    var t := s.txs[a.tid];
    StuckTx(f, init, s, a.tid);
    PendingIsCarried(a.tid, t, a);
    assert SentOk(s.parts, t, a);
    StuckWorker(s, a.part);
    assert PlaceOk(s.txs, a.part, s.parts[a.part].place, a);
    IdlePlaces(s.parts[a.part], a);
  }

  lemma PendingIsCarried(u: nat, t: Tx, a: Action)
    requires TxInv(u, t) && a in t.pending
    ensures a in t.actions
  {
  }

  // With empty queues and empty hands, an unreleased action waits, or is done
  lemma IdlePlaces(part: Part, a: Action)
    requires PartInv(part) && part.input == [] && part.committed == [] && part.pc in {Loop, Input} && a in part.place
    ensures part.place[a] in {Waiting, Done, Released}
  {
    hide Separate, LockSide, OrderSide, NoDup;
    assert Todo(part.pc) == [] && InExec(part.pc) == [] && InPost(part.pc) == [];
    assert !At(part.place, a, InInput) && !At(part.place, a, InCommitted);
    assert !At(part.place, a, Ready) && !At(part.place, a, Executing) && !At(part.place, a, Posting);
  }

  // Whoever blocks an action is unreleased, so its transaction is unfinished
  lemma BlockerUnfinished(f: Body, init: Store, s: Sys, p: nat, b: Action)
    requires SysInv(f, init, s) && Stuck(s) && p in s.parts && b in s.parts[p].order
    ensures b.tid in s.txs && Unfinished(s, b.tid)
  {
    hide PartInv, DataInv, Logged, Stuck, TxInv;
    InOrderIsHeld(s.parts[p], b);
    StuckWorker(s, p);
    IdlePlaces(s.parts[p], b);
    assert PlaceOk(s.txs, p, s.parts[p].place, b);
    StuckTx(f, init, s, b.tid);
    if StageOf(s.txs[b.tid], b) == Pending { PostOneInv(b.tid, s.txs[b.tid], b); }
  }

  lemma InOrderIsHeld(part: Part, b: Action)
    requires PartInv(part) && b in part.order
    ensures b in part.place && Held(part.place[b])
  {
    hide Separate, LockSide, QueueSide;
    assert OrderAt(part.order, part.needed, part.place, b);
  }

  lemma WaitingIsBlocked(part: Part, a: Action) returns (i: nat, j: nat, k: Key)
    requires PartInv(part) && At(part.place, a, Waiting)
    ensures i < j < |part.order| && part.order[j] == a && Conflict(part.order[i], a, k)
    ensures part.order[i].tid != a.tid
  {
    hide Separate, QueueSide;
    assert OrderAt(part.order, part.needed, part.place, a);
    j := PositionOf(part.order, a);
    ReadyIffRunnable(part, j);
    k :| k in a.keys && Blocked(part.order[..j], a, k);
    i :| 0 <= i < j && Conflict(part.order[..j][i], a, k);
  }

  /** The system never stops by itself: if nothing can happen but new input, an undecided
      transaction has sent everything and waits for the post of an action that waits, in its
      partition, for the lock of an earlier action of another transaction; and that one is
      unfinished too.  So what stops it is a cycle of locks through several actions, or the
      log that has not reached the commit record of a lazy commit. */
  lemma StuckWaits(f: Body, init: Store, s: Sys, u: nat) returns (a: Action, b: Action)
    requires SysInv(f, init, s) && Stuck(s) && u in s.txs && s.txs[u].outcome == Undecided
    ensures a in s.txs[u].actions && a.tid == u && WaitsFor(s, a, b) && Unfinished(s, b.tid)
  {
    hide PartInv, DataInv, Linked, Logged, Stuck, StageOf, Conflict, Unfinished;
    StuckTx(f, init, s, u);
    a := SomePending(u, s.txs[u]);
    PendingWaits(f, init, s, a);
    var i, j, k := WaitingIsBlocked(s.parts[a.part], a);
    b := s.parts[a.part].order[i];
    BlockerUnfinished(f, init, s, a.part, b);
    InOrderIsHeld(s.parts[a.part], b);
    PlacedHere(s.parts, s.txs, a.part, b);
  }

  lemma SomePending(u: nat, t: Tx) returns (a: Action)
    requires TxInv(u, t) && t.outcome == Undecided && t.mode != Running
    ensures a in t.pending && a in t.actions && a.tid == u
  {
    hide NoDup;
    a :| a in t.pending;
  }

  /** The environment is free: a client may start any transaction of well-formed actions, a
      body may return anything and fail or not, a midway rendezvous point may send out any new
      actions, the storage manager may answer anything, and the log may grow, whenever the code
      gets there; and no assert stands against it. */
  lemma EnvironmentIsFree(f: Body, init: Store, s: Sys)
    requires SysInv(f, init, s)
    ensures forall u, midways, actions ::
              u !in s.txs && actions != [] && WfActions(u, actions) && (forall a :: a in actions ==> a.part in s.parts)
              ==> Enabled(s, Begin(u, midways, actions))
    ensures forall p, partial, err :: p in s.parts && s.parts[p].pc.Exec? ==> Enabled(s, RunBody(p, partial, err))
    ensures forall u, next ::
              u in s.txs && s.txs[u].mode == Running && s.txs[u].midways > 0
              && next != [] && WfActions(u, s.txs[u].actions + next) && (forall a :: a in next ==> a.part in s.parts)
              ==> Enabled(s, Midway(u, next))
    ensures forall u, commitOk, lazy, lsn ::
              u in s.txs && s.txs[u].mode == Running && s.txs[u].midways == 0
              ==> Enabled(s, Terminal(u, commitOk, lazy, lsn))
    ensures forall lsn :: lsn >= s.durable ==> Enabled(s, Harden(lsn)) && Apply(f, s, Harden(lsn)).durable == lsn
  {
    hide SysInv, WfActions;
    forall p, partial, err | p in s.parts && s.parts[p].pc.Exec? ensures Enabled(s, RunBody(p, partial, err)) {
      StepKeeps(f, init, s, RunBody(p, partial, err));
    }
    forall u, commitOk, lazy, lsn | u in s.txs && s.txs[u].mode == Running && s.txs[u].midways == 0
      ensures Enabled(s, Terminal(u, commitOk, lazy, lsn))
    {
      StepKeeps(f, init, s, Terminal(u, commitOk, lazy, lsn));
    }
  }
}
