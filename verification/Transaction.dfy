/** A transaction as the chain of its rendezvous points: the countdown and the decision of
    the current one, the list of actions it carries, and the loops that send new actions out
    and notify the partitions at the end. */
module Transactions {
  import opened KeyWrappers
  import opened LockTables
  import opened LockOrder
  import opened Sequences

  // AD_UNDECIDED until the terminal rendezvous point has committed or aborted
  datatype Outcome = Undecided | Committed | Aborted

  // Waiting for posts, inside _run(), in the hands of the flusher, or notifying partitions
  datatype Mode = Gathering | Running | Flushing(lsn: nat) | Notifying

  datatype Tx = Tx(
    midways: nat,           // rendezvous points that come after the current one
    count: nat,             // the countdown of the current one
    aborted: bool,          // its decision is AD_ABORT
    actions: seq<Action>,   // all actions it carries
    toSend: seq<Action>,    // new actions that have not been enqueued yet
    toNotify: seq<Action>,  // what is left of the notify_partitions() loop
    mode: Mode,
    outcome: Outcome,
    pending: set<Action>)   // auxiliary: the actions that still have to post

  // How far an action has got, as its transaction knows it
  datatype Stage = Unsent | Pending | Posted | Notified

  function StageOf(t: Tx, a: Action): Stage {
    if a !in t.actions || a in t.toSend then Unsent
    else if a in t.pending then Pending
    else if t.mode == Notifying && a !in t.toNotify then Notified
    else Posted
  }

  function Elements(xs: seq<Action>): set<Action> { set a | a in xs }

  // ---------------------------------------------------------------------------
  // The steps
  // ---------------------------------------------------------------------------

  function NewTx(midways: nat, actions: seq<Action>): Tx {
    Tx(midways, |actions|, false, actions, actions, [], Gathering, Undecided, Elements(actions))
  }

  function SentOne(t: Tx): Tx
    requires t.toSend != []
  {
    t.(toSend := t.toSend[1..])
  }

  function SetAbort(t: Tx): Tx { t.(aborted := true) }

  // The post of an action: the last one runs the rendezvous point
  function PostOne(t: Tx, a: Action): Tx
    requires t.count > 0
  {
    t.(count := t.count - 1, pending := t.pending - {a}, mode := if t.count == 1 then Running else t.mode)
  }

  // A midway rendezvous point: if it was aborted it aborts and runs the next one at once,
  // otherwise the next one carries the old actions and expects the new ones
  function RunMidway(t: Tx, next: seq<Action>): Tx
    requires t.midways > 0
  {
    if t.aborted then t.(midways := t.midways - 1)
    else NewTx(t.midways - 1, next).(actions := t.actions + next)
  }

  // The terminal rendezvous point: abort, or commit; a failed commit is aborted, and a lazy
  // commit leaves the notification to the flusher
  function RunTerminal(t: Tx, commitOk: bool, lazy: bool, lsn: nat): Tx {
    if t.aborted || !commitOk then t.(outcome := Aborted, mode := Notifying, toNotify := t.actions)
    else if lazy then t.(outcome := Committed, mode := Flushing(lsn))
    else t.(outcome := Committed, mode := Notifying, toNotify := t.actions)
  }

  function FlushDone(t: Tx): Tx { t.(mode := Notifying, toNotify := t.actions) }

  function NotifyOne(t: Tx): Tx
    requires t.toNotify != []
  {
    t.(toNotify := t.toNotify[1..])
  }

  // ---------------------------------------------------------------------------
  // The invariant
  // ---------------------------------------------------------------------------

  // The actions of a transaction: distinct, with keys, and no two on one key of a partition
  ghost predicate WfActions(u: nat, actions: seq<Action>) {
    && NoDup(actions)
    && (forall a :: a in actions ==> a.tid == u && a.keys != [] && NoDup(a.keys))
    && (forall a, b, k :: a in actions && b in actions && a != b && a.part == b.part && k in a.keys ==> k !in b.keys)
  }

  ghost predicate TxInv(u: nat, t: Tx) {
    && WfActions(u, t.actions) && t.actions != []
    && (forall a :: a in t.pending ==> a in t.actions)
    && (forall a :: a in t.toSend ==> a in t.pending)
    && (forall a :: a in t.toNotify ==> a in t.actions)
    && NoDup(t.toSend) && NoDup(t.toNotify)
    && t.count == |t.pending|
    && (t.mode == Gathering <==> t.count > 0)
    && (t.outcome == Undecided <==> t.mode in {Gathering, Running})
    && (t.outcome != Undecided ==> t.midways == 0)
    && (t.outcome == Committed ==> !t.aborted)
    && (t.mode.Flushing? ==> t.outcome == Committed)
    && (t.mode != Notifying ==> t.toNotify == [])
  }

  lemma {:induction false} ElementsCount(xs: seq<Action>)
    requires NoDup(xs)
    ensures |Elements(xs)| == |xs|
  {
    if xs != [] {
      TailOf(xs);
      ElementsCount(xs[1..]);
      assert Elements(xs) == {xs[0]} + Elements(xs[1..]);
    }
  }

  lemma NobodyIn(xs: seq<Action>, s: set<Action>)
    requires s == {} && forall a :: a in xs ==> a in s
    ensures xs == []
  {
    HasMember(xs);
  }

  lemma HasMember(xs: seq<Action>)
    ensures xs == [] || xs[0] in xs
  {
  }

  lemma NewTxInv(u: nat, midways: nat, actions: seq<Action>)
    requires WfActions(u, actions) && actions != []
    ensures TxInv(u, NewTx(midways, actions))
    ensures NewTx(midways, actions).actions == NewTx(midways, actions).toSend == actions
    ensures NewTx(midways, actions).mode == Gathering && !NewTx(midways, actions).aborted
    ensures forall a :: StageOf(NewTx(midways, actions), a) == Unsent
  {
    ElementsCount(actions);
  }

  lemma SentOneInv(u: nat, t: Tx)
    requires TxInv(u, t) && t.toSend != []
    ensures TxInv(u, SentOne(t))
    ensures forall b :: b != t.toSend[0] ==> StageOf(SentOne(t), b) == StageOf(t, b)
    ensures StageOf(t, t.toSend[0]) == Unsent && StageOf(SentOne(t), t.toSend[0]) == Pending
    ensures t.toSend[0] in t.actions
  {
    TailOf(t.toSend);
    assert t.toSend[0] in t.pending;
  }

  lemma SetAbortInv(u: nat, t: Tx)
    requires TxInv(u, t) && t.outcome == Undecided
    ensures TxInv(u, SetAbort(t))
    ensures forall b :: StageOf(SetAbort(t), b) == StageOf(t, b)
  {
  }

  /** Only the last of the expected posts starts the rendezvous point, and then none of the
      actions it carries is still out. */
  lemma PostOneInv(u: nat, t: Tx, a: Action)
    requires TxInv(u, t) && StageOf(t, a) == Pending
    ensures t.count > 0 && t.mode == Gathering && t.outcome == Undecided
    ensures TxInv(u, PostOne(t, a))
    ensures PostOne(t, a).mode == Running <==> t.pending == {a}
    ensures forall b :: b != a ==> StageOf(PostOne(t, a), b) == StageOf(t, b)
    ensures StageOf(PostOne(t, a), a) == Posted
  {
    assert |t.pending - {a}| == |t.pending| - 1;
    if t.count == 1 {
      assert t.pending - {a} == {};
      NobodyIn(t.toSend, t.pending - {a});
    }
  }

  lemma IdleHasPosted(u: nat, t: Tx)
    requires TxInv(u, t) && t.mode != Gathering
    ensures t.pending == {} && t.toSend == []
  {
    NobodyIn(t.toSend, t.pending);
  }

  lemma RunMidwayInv(u: nat, t: Tx, next: seq<Action>)
    requires TxInv(u, t) && t.mode == Running && t.midways > 0
    requires !t.aborted ==> next != [] && WfActions(u, t.actions + next)
    ensures TxInv(u, RunMidway(t, next))
    ensures RunMidway(t, next).actions == (if t.aborted then t.actions else t.actions + next)
    ensures RunMidway(t, next).toSend == (if t.aborted then [] else next)
    ensures RunMidway(t, next).mode == if t.aborted then Running else Gathering
    ensures forall b :: StageOf(RunMidway(t, next), b) == StageOf(t, b)
    ensures RunMidway(t, next).outcome == Undecided && RunMidway(t, next).aborted == t.aborted
    ensures forall b :: b in t.actions ==> b in RunMidway(t, next).actions
    ensures forall b :: b in RunMidway(t, next).actions ==> b in t.actions || (b in next && !t.aborted)
  {
    IdleHasPosted(u, t);
    if !t.aborted {
      NextIsNew(t.actions, next);
      ElementsCount(next);
    }
  }

  lemma NextIsNew(old_: seq<Action>, next: seq<Action>)
    requires NoDup(old_ + next)
    ensures NoDup(next) && forall b :: b in next ==> b !in old_
    ensures forall b :: b in old_ + next <==> b in old_ || b in next
  {
    var both := old_ + next;
    forall i, j | 0 <= i < j < |next| ensures next[i] != next[j] {
      assert next[i] == both[|old_| + i] && next[j] == both[|old_| + j];
    }
    forall b | b in next ensures b !in old_ {
      var j :| 0 <= j < |next| && next[j] == b;
      assert both[|old_| + j] == b;
      forall i | 0 <= i < |old_| ensures old_[i] != b { assert both[i] == old_[i]; }
    }
  }

  /** The terminal rendezvous point runs once, after every action has posted; it aborts exactly
      when some action aborted the transaction or the commit failed. */
  lemma RunTerminalInv(u: nat, t: Tx, commitOk: bool, lazy: bool, lsn: nat)
    requires TxInv(u, t) && t.mode == Running && t.midways == 0
    ensures t.pending == {} && t.outcome == Undecided
    ensures var t' := RunTerminal(t, commitOk, lazy, lsn);
            && TxInv(u, t')
            && t'.outcome == (if t.aborted || !commitOk then Aborted else Committed)
            && (t'.mode == Flushing(lsn) <==> lazy && commitOk && !t.aborted)
            && (t'.mode == Notifying <==> !lazy || !commitOk || t.aborted)
            && t'.toNotify == (if t'.mode == Notifying then t.actions else [])
            && forall b :: StageOf(t', b) == StageOf(t, b)
  {
    IdleHasPosted(u, t);
  }

  lemma FlushDoneInv(u: nat, t: Tx)
    requires TxInv(u, t) && t.mode.Flushing?
    ensures TxInv(u, FlushDone(t))
    ensures FlushDone(t).mode == Notifying && FlushDone(t).toNotify == t.actions
    ensures forall b :: StageOf(FlushDone(t), b) == StageOf(t, b)
  {
    IdleHasPosted(u, t);
  }

  lemma NotifyOneInv(u: nat, t: Tx)
    requires TxInv(u, t) && t.toNotify != []
    ensures TxInv(u, NotifyOne(t))
    ensures forall b :: b != t.toNotify[0] ==> StageOf(NotifyOne(t), b) == StageOf(t, b)
    ensures StageOf(t, t.toNotify[0]) == Posted && StageOf(NotifyOne(t), t.toNotify[0]) == Notified
  {
    IdleHasPosted(u, t);
    TailOf(t.toNotify);
  }
}
