/** The queues over whole runs, read off the steps alone: both queues of a partition are first
    in, first out, and a transaction sends out and notifies its actions in the order in which
    it carries them; nothing is lost, repeated or overtaken. */
module ProtocolQueues {
  import opened KeyWrappers
  import opened LockTables
  import opened LockOrder
  import opened Sequences
  import opened Partitions
  import opened Transactions
  import opened SerialData
  import opened Protocol
  import opened ProtocolRuns
  import opened ProtocolBodies

  // Which milestones one is looking for: actions sent to a partition, served by it, sent back
  // to it, or released by it; actions that a transaction sends out or sends back
  datatype Watch =
    ToPart(p: nat) | ServedBy(p: nat) | BackTo(p: nat) | FreedBy(p: nat) | SentBy(u: nat) | BackFrom(u: nat)

  function Seen(w: Watch, m: Milestone): seq<Action> {
    match w
    case ToPart(p) => if m.Enqueued? && m.a.part == p then [m.a] else []
    case ServedBy(p) => if m.ServedNow? && m.a.part == p then [m.a] else []
    case BackTo(p) => if m.SentBack? && m.a.part == p then [m.a] else []
    case FreedBy(p) => if m.Freed? && m.a.part == p then [m.a] else []
    case SentBy(u) => if m.Enqueued? && m.a.tid == u then [m.a] else []
    case BackFrom(u) => if m.SentBack? && m.a.tid == u then [m.a] else []
  }

  // These actions, in the order of the steps, for the first n steps of a run
  ghost function Trace(f: Body, init: Store, partitions: set<nat>, states: seq<Sys>, steps: seq<Step>, n: nat,
      w: Watch): seq<Action>
    requires IsRun(f, init, partitions, states, steps) && n <= |steps|
  {
    if n == 0 then []
    else
      Trace(f, init, partitions, states, steps, n - 1, w)
      + Seen(w, EventAt(f, init, partitions, states, steps, n - 1))
  }

  // The action that joins the end of the unreleased actions when the worker takes an input
  function Joined(step: Step, p: nat, order': seq<Action>): seq<Action> {
    if step == Take(p) && order' != [] then [order'[|order'| - 1]] else []
  }

  // The actions that the worker of a partition has taken, in the order of its steps
  function Taken(states: seq<Sys>, steps: seq<Step>, n: nat, p: nat): seq<Action>
    requires n <= |steps| < |states|
  {
    if n == 0 then []
    else
      Taken(states, steps, n - 1, p)
      + if p in states[n].parts then Joined(steps[n - 1], p, states[n].parts[p].order) else []
  }

  // ---------------------------------------------------------------------------
  // The queues of a partition
  // ---------------------------------------------------------------------------

  lemma SamePartitions(f: Body, s: Sys, step: Step)
    requires Enabled(s, step)
    ensures Apply(f, s, step).parts.Keys == s.parts.Keys
  {
    hide WfActions, CanDrain, Drain, TakeInput, TerminalData, ExecData, BeginData, NewTx, SentToParts;
  }

  lemma InputStep(f: Body, init: Store, s: Sys, step: Step, p: nat)
    requires SysInv(f, init, s) && Enabled(s, step) && p in s.parts && p in Apply(f, s, step).parts
    ensures var part, part' := s.parts[p], Apply(f, s, step).parts[p];
            part.input + Seen(ToPart(p), EventOf(s, step)) == Joined(step, p, part'.order) + part'.input
  {
    hide SysInv, WfActions, CanDrain, TerminalData, ExecData, BeginData, NewTx, SentToParts, AcquireAll, ReleaseKeys,
        Wake, PositionOf, WithoutAt, RequestsOf;
  }

  lemma CommittedStep(f: Body, init: Store, s: Sys, step: Step, p: nat)
    requires SysInv(f, init, s) && Enabled(s, step) && p in s.parts && p in Apply(f, s, step).parts
    ensures var part, part' := s.parts[p], Apply(f, s, step).parts[p];
            part.committed + Seen(BackTo(p), EventOf(s, step)) == Seen(FreedBy(p), EventOf(s, step)) + part'.committed
  {
    hide SysInv, PostOne, RunMidway, RunTerminal, SetAbort, FlushDone, NotifyOne, SentOne;
    hide WfActions, TerminalData, ExecData, BeginData, NewTx, SentToParts, AcquireAll, ReleaseKeys,
        Wake, PositionOf, WithoutAt, RequestsOf;
    if step.DrainOne? { WorkerAt(f, init, s, step.p); }
  }

  /** The input queue is first in, first out, over every run: the actions sent to a partition,
      in the order in which they were sent, are those that its worker has taken, in the order
      in which it took them, followed by those that are still in the queue. */
  lemma {:induction false} InputIsFifo(
      f: Body, init: Store, partitions: set<nat>, states: seq<Sys>, steps: seq<Step>, n: nat, p: nat)
    requires IsRun(f, init, partitions, states, steps) && n <= |steps| && p in partitions
    ensures p in states[n].parts
    ensures Trace(f, init, partitions, states, steps, n, ToPart(p))
        == Taken(states, steps, n, p) + states[n].parts[p].input
  {
    hide SysInv, Enabled, Apply, EventOf, Next, Joined, Seen;
    if n == 0 {
    } else {
      var m := n - 1;
      InputIsFifo(f, init, partitions, states, steps, m, p);
      RunIsSafe(f, init, partitions, states, steps, m);
      SamePartitions(f, states[m], steps[m]);
      InputStep(f, init, states[m], steps[m], p);
      Assoc(Taken(states, steps, m, p), states[m].parts[p].input,
            Seen(ToPart(p), EventAt(f, init, partitions, states, steps, m)));
      Assoc(Taken(states, steps, m, p), Joined(steps[m], p, states[n].parts[p].order), states[n].parts[p].input);
    }
  }

  /** So is the committed queue: the actions sent back to a partition are those that its worker
      has released, followed by those in the queue. */
  lemma {:induction false} CommittedIsFifo(
      f: Body, init: Store, partitions: set<nat>, states: seq<Sys>, steps: seq<Step>, n: nat, p: nat)
    requires IsRun(f, init, partitions, states, steps) && n <= |steps| && p in partitions
    ensures p in states[n].parts
    ensures Trace(f, init, partitions, states, steps, n, BackTo(p))
        == Trace(f, init, partitions, states, steps, n, FreedBy(p)) + states[n].parts[p].committed
  {
    hide SysInv, Enabled, Apply, EventOf, Next, Seen;
    if n == 0 {
    } else {
      var m := n - 1;
      var e := EventAt(f, init, partitions, states, steps, m);
      var freed := Trace(f, init, partitions, states, steps, m, FreedBy(p));
      CommittedIsFifo(f, init, partitions, states, steps, m, p);
      RunIsSafe(f, init, partitions, states, steps, m);
      SamePartitions(f, states[m], steps[m]);
      CommittedStep(f, init, states[m], steps[m], p);
      Assoc(freed, states[m].parts[p].committed, Seen(BackTo(p), e));
      Assoc(freed, Seen(FreedBy(p), e), states[n].parts[p].committed);
    }
  }

  // The actions that a step makes ready: a new one that got all its locks, or those whose last
  // missing key a release has passed on
  function ReadyNow(step: Step, p: nat, pc': Pc): seq<Action> {
    if step == Take(p) || step == DrainOne(p) then Todo(pc') else []
  }

  function MadeReady(states: seq<Sys>, steps: seq<Step>, n: nat, p: nat): seq<Action>
    requires n <= |steps| < |states|
  {
    if n == 0 then []
    else
      MadeReady(states, steps, n - 1, p)
      + if p in states[n].parts then ReadyNow(steps[n - 1], p, states[n].parts[p].pc) else []
  }

  lemma OwnServedStep(f: Body, init: Store, s: Sys, step: Step, p: nat)
    requires SysInv(f, init, s) && Enabled(s, step) && WorkerOf(step, p)
    requires p in s.parts && p in Apply(f, s, step).parts
    ensures var pc, pc' := s.parts[p].pc, Apply(f, s, step).parts[p].pc;
            Todo(pc) + ReadyNow(step, p, pc') == Seen(ServedBy(p), EventOf(s, step)) + Todo(pc')
  {
    hide SysInv, CanDrain, ExecData, AcquireAll, ReleaseKeys, Wake, PositionOf, WithoutAt, RequestsOf;
    if step.ServeOne? { WorkerAt(f, init, s, p); }
  }

  lemma OthersServe(f: Body, init: Store, s: Sys, step: Step, p: nat)
    requires SysInv(f, init, s) && Enabled(s, step) && !WorkerOf(step, p)
    ensures Seen(ServedBy(p), EventOf(s, step)) == []
  {
    hide SysInv, WfActions, CanDrain;
    if step.ServeOne? { WorkerAt(f, init, s, step.p); }
  }

  lemma ServedStep(f: Body, init: Store, s: Sys, step: Step, p: nat)
    requires SysInv(f, init, s) && Enabled(s, step) && p in s.parts && p in Apply(f, s, step).parts
    ensures var pc, pc' := s.parts[p].pc, Apply(f, s, step).parts[p].pc;
            Todo(pc) + ReadyNow(step, p, pc') == Seen(ServedBy(p), EventOf(s, step)) + Todo(pc')
  {
    hide SysInv, Guard, Asserts, Apply, EventOf, Seen;
    if WorkerOf(step, p) {
      OwnServedStep(f, init, s, step, p);
    } else {
      OtherWorkers(f, s, step, p);
      OthersServe(f, init, s, step, p);
    }
  }

  /** A worker serves the actions in the order in which they became ready, each of them. */
  lemma {:induction false} ServesInOrder(
      f: Body, init: Store, partitions: set<nat>, states: seq<Sys>, steps: seq<Step>, n: nat, p: nat)
    requires IsRun(f, init, partitions, states, steps) && n <= |steps| && p in partitions
    ensures p in states[n].parts
    ensures Trace(f, init, partitions, states, steps, n, ServedBy(p)) + Todo(states[n].parts[p].pc)
        == MadeReady(states, steps, n, p)
  {
    hide SysInv, Enabled, Apply, EventOf, Next, Seen, ReadyNow;
    if n == 0 {
    } else {
      var m := n - 1;
      var e := EventAt(f, init, partitions, states, steps, m);
      var served := Trace(f, init, partitions, states, steps, m, ServedBy(p));
      ServesInOrder(f, init, partitions, states, steps, m, p);
      RunIsSafe(f, init, partitions, states, steps, m);
      SamePartitions(f, states[m], steps[m]);
      ServedStep(f, init, states[m], steps[m], p);
      Assoc(served, Todo(states[m].parts[p].pc), ReadyNow(steps[m], p, states[n].parts[p].pc));
      Assoc(served, Seen(ServedBy(p), e), Todo(states[n].parts[p].pc));
    }
  }

  // ---------------------------------------------------------------------------
  // Commits come before inputs
  // ---------------------------------------------------------------------------

  // At step i the worker found its committed queue empty and turned to the input queue, and it
  // has done nothing since
  ghost predicate TurnedAt(states: seq<Sys>, steps: seq<Step>, i: nat, n: nat, p: nat) {
    && i < n <= |steps| < |states| && steps[i] == ToInput(p)
    && p in states[i].parts && states[i].parts[p].committed == []
    && forall j :: i < j < n ==> !WorkerOf(steps[j], p)
  }

  lemma AtInput(f: Body, s: Sys, step: Step, p: nat)
    requires Enabled(s, step) && WorkerOf(step, p)
    ensures p in s.parts && p in Apply(f, s, step).parts
    ensures Apply(f, s, step).parts[p].pc == Input ==> step == ToInput(p) && s.parts[p].committed == []
  {
    hide CanDrain, ExecData, AcquireAll, ReleaseKeys, Wake, PositionOf, WithoutAt, RequestsOf, BodyEffect, PostOne;
  }

  lemma {:induction false} WhenTurned(
      f: Body, init: Store, partitions: set<nat>, states: seq<Sys>, steps: seq<Step>, n: nat, p: nat) returns (i: nat)
    requires IsRun(f, init, partitions, states, steps) && n <= |steps|
    requires p in states[n].parts && states[n].parts[p].pc == Input
    ensures TurnedAt(states, steps, i, n, p)
  {
    hide SysInv, Guard, Asserts, Apply, Next, WorkerOf;
    if n == 0 {
      assert false;
    } else {
      var m := n - 1;
      RunIsSafe(f, init, partitions, states, steps, m);
      if WorkerOf(steps[m], p) {
        AtInput(f, states[m], steps[m], p);
        i := m;
      } else {
        OtherWorkers(f, states[m], steps[m], p);
        i := WhenTurned(f, init, partitions, states, steps, m, p);
      }
    }
  }

  /** Commits come before inputs: before each input that a worker takes, it has looked at its
      committed queue and found it empty, and has done nothing else in between. */
  lemma CommitsComeFirst(
      f: Body, init: Store, partitions: set<nat>, states: seq<Sys>, steps: seq<Step>, n: nat, p: nat) returns (i: nat)
    requires IsRun(f, init, partitions, states, steps) && n < |steps| && steps[n] == Take(p)
    ensures TurnedAt(states, steps, i, n, p)
  {
    hide SysInv, Apply, TurnedAt, Next;
    RunIsSafe(f, init, partitions, states, steps, n);
    i := WhenTurned(f, init, partitions, states, steps, n, p);
  }

  // ---------------------------------------------------------------------------
  // The lists of a transaction
  // ---------------------------------------------------------------------------

  // The actions that a transaction is given: by the client, and by each midway rendezvous
  // point that is not aborted
  function GivenNow(s: Sys, step: Step, u: nat): seq<Action> {
    if step.Begin? && step.u == u then step.actions
    else if step.Midway? && step.u == u && u in s.txs && !s.txs[u].aborted then step.next
    else []
  }

  function Given(states: seq<Sys>, steps: seq<Step>, n: nat, u: nat): seq<Action>
    requires n <= |steps| < |states|
  {
    if n == 0 then [] else Given(states, steps, n - 1, u) + GivenNow(states[n - 1], steps[n - 1], u)
  }

  ghost function Carried(s: Sys, u: nat): seq<Action> { if u in s.txs then s.txs[u].actions else [] }

  ghost function ToSend(s: Sys, u: nat): seq<Action> { if u in s.txs then s.txs[u].toSend else [] }

  ghost function ToNotify(s: Sys, u: nat): seq<Action> { if u in s.txs then s.txs[u].toNotify else [] }

  // All actions, once the notification has started
  ghost function Notified(s: Sys, u: nat): seq<Action> {
    if u in s.txs && s.txs[u].mode == Notifying then s.txs[u].actions else []
  }

  lemma OwnHeads(f: Body, init: Store, s: Sys, u: nat)
    requires SysInv(f, init, s) && u in s.txs
    ensures s.txs[u].toSend != [] ==> s.txs[u].toSend[0].tid == u
    ensures s.txs[u].toNotify != [] ==> s.txs[u].toNotify[0].tid == u
    ensures s.txs[u].mode == Running ==> s.txs[u].toSend == []
    ensures s.txs[u].mode != Notifying ==> s.txs[u].toNotify == []
  {
    hide PartInv, DataInv, Linked, Logged, StageOf;
    var t := s.txs[u];
    if t.toSend != [] { SentOneInv(u, t); TxOwns(u, t, t.toSend[0]); }
    if t.toNotify != [] { HomeHead(u, t); }
    if t.mode == Running { IdleHasPosted(u, t); }
  }

  // The transaction that a step changes
  ghost predicate Changes(s: Sys, step: Step, u: nat)
    requires Guard(s, step)
  {
    match step
    case Begin(v, _, _) => u == v
    case Send(v) => u == v
    case MarkAbort(p) => u == s.parts[p].pc.a.tid
    case PostAction(p) => u == s.parts[p].pc.a.tid
    case Midway(v, _) => u == v
    case Terminal(v, _, _, _) => u == v
    case Flushed(v) => u == v
    case SendHome(v) => u == v
    case _ => false
  }

  lemma OtherTxs(f: Body, s: Sys, step: Step, u: nat)
    requires Enabled(s, step) && !Changes(s, step, u)
    ensures u in Apply(f, s, step).txs <==> u in s.txs
    ensures u in s.txs ==> Apply(f, s, step).txs[u] == s.txs[u]
    ensures GivenNow(s, step, u) == []
  {
    hide WfActions, CanDrain, Drain, TakeInput, TerminalData, ExecData, BeginData, SentToParts, Enqueue,
        EnqueueCommit, NewTx, RunMidway, RunTerminal, PostOne;
  }

  lemma OthersSeen(f: Body, init: Store, s: Sys, step: Step, u: nat)
    requires SysInv(f, init, s) && Enabled(s, step) && !Changes(s, step, u)
    ensures Seen(SentBy(u), EventOf(s, step)) == [] && Seen(BackFrom(u), EventOf(s, step)) == []
  {
    hide SysInv, WfActions, CanDrain;
    if step.Send? || step.SendHome? { OwnHeads(f, init, s, step.u); }
  }

  lemma OwnSendStep(f: Body, init: Store, s: Sys, step: Step, u: nat)
    requires SysInv(f, init, s) && Enabled(s, step) && Changes(s, step, u)
    ensures Carried(Apply(f, s, step), u) == Carried(s, u) + GivenNow(s, step, u)
    ensures ToSend(s, u) + GivenNow(s, step, u) == Seen(SentBy(u), EventOf(s, step)) + ToSend(Apply(f, s, step), u)
  {
    hide SysInv, WfActions, TerminalData, BeginData, SentToParts, Enqueue, EnqueueCommit, StageOf, Elements;
    if u in s.txs { OwnHeads(f, init, s, u); }
  }

  lemma SendListStep(f: Body, init: Store, s: Sys, step: Step, u: nat)
    requires SysInv(f, init, s) && Enabled(s, step)
    ensures Carried(Apply(f, s, step), u) == Carried(s, u) + GivenNow(s, step, u)
    ensures ToSend(s, u) + GivenNow(s, step, u) == Seen(SentBy(u), EventOf(s, step)) + ToSend(Apply(f, s, step), u)
  {
    hide SysInv, Guard, Asserts, Apply, Changes, EventOf, Seen, GivenNow;
    if Changes(s, step, u) {
      OwnSendStep(f, init, s, step, u);
    } else {
      OtherTxs(f, s, step, u);
      OthersSeen(f, init, s, step, u);
    }
  }

  // A step takes one action off the list of those that are to be notified, or fills the list
  ghost predicate NotifiesOne(s: Sys, s': Sys, seen: seq<Action>, u: nat) {
    Notified(s', u) == Notified(s, u) && ToNotify(s, u) == seen + ToNotify(s', u)
  }

  ghost predicate StartsNotifying(s: Sys, s': Sys, seen: seq<Action>, u: nat) {
    Notified(s, u) == ToNotify(s, u) == seen == [] && ToNotify(s', u) == Notified(s', u)
  }

  lemma OwnNotifyStep(f: Body, init: Store, s: Sys, step: Step, u: nat)
    requires SysInv(f, init, s) && Enabled(s, step) && Changes(s, step, u)
    ensures var s', seen := Apply(f, s, step), Seen(BackFrom(u), EventOf(s, step));
            NotifiesOne(s, s', seen, u) || StartsNotifying(s, s', seen, u)
  {
    hide SysInv, WfActions, TerminalData, BeginData, SentToParts, Enqueue, EnqueueCommit, StageOf, Elements;
    if u in s.txs { OwnHeads(f, init, s, u); }
    if step.PostAction? { PosterGathers(f, init, s, step.p); }
  }

  lemma NotifyListStep(f: Body, init: Store, s: Sys, step: Step, u: nat)
    requires SysInv(f, init, s) && Enabled(s, step)
    ensures var s', seen := Apply(f, s, step), Seen(BackFrom(u), EventOf(s, step));
            NotifiesOne(s, s', seen, u) || StartsNotifying(s, s', seen, u)
  {
    hide SysInv, Guard, Asserts, Apply, Changes, EventOf, Seen, GivenNow;
    if Changes(s, step, u) {
      OwnNotifyStep(f, init, s, step, u);
    } else {
      OtherTxs(f, s, step, u);
      OthersSeen(f, init, s, step, u);
    }
  }

  /** A transaction carries exactly the actions that it was given, and sends each of them out
      in that order: those sent so far, followed by those still to be sent, are those given. */
  lemma {:induction false} SendsInOrder(
      f: Body, init: Store, partitions: set<nat>, states: seq<Sys>, steps: seq<Step>, n: nat, u: nat)
    requires IsRun(f, init, partitions, states, steps) && n <= |steps|
    ensures Carried(states[n], u) == Given(states, steps, n, u)
    ensures Trace(f, init, partitions, states, steps, n, SentBy(u)) + ToSend(states[n], u) == Given(states, steps, n, u)
  {
    hide SysInv, Enabled, Apply, EventOf, Next, Seen, ToSend, Carried, GivenNow;
    if n == 0 {
      NoTxs(partitions, init, u);
    } else {
      var m := n - 1;
      var sent := Trace(f, init, partitions, states, steps, m, SentBy(u));
      SendsInOrder(f, init, partitions, states, steps, m, u);
      RunIsSafe(f, init, partitions, states, steps, m);
      SendListStep(f, init, states[m], steps[m], u);
      Assoc(sent, ToSend(states[m], u), GivenNow(states[m], steps[m], u));
      Assoc(sent, Seen(SentBy(u), EventAt(f, init, partitions, states, steps, m)), ToSend(states[n], u));
    }
  }

  lemma NoTxs(partitions: set<nat>, init: Store, u: nat)
    ensures Carried(Init(partitions, init), u) == ToSend(Init(partitions, init), u) == []
    ensures Notified(Init(partitions, init), u) == ToNotify(Init(partitions, init), u) == []
  {
  }

  /** And it sends them back in the same order, once the notification has started, and none of
      them before: those sent back so far, followed by those still to be notified, are all. */
  lemma NotifiesInOrder(
      f: Body, init: Store, partitions: set<nat>, states: seq<Sys>, steps: seq<Step>, n: nat, u: nat)
    requires IsRun(f, init, partitions, states, steps) && n <= |steps|
    ensures Trace(f, init, partitions, states, steps, n, BackFrom(u)) + ToNotify(states[n], u)
        == if u in states[n].txs && states[n].txs[u].mode == Notifying then Given(states, steps, n, u) else []
  {
    hide SysInv, Enabled, Apply, EventOf, Next, Seen, ToNotify;
    SendsInOrder(f, init, partitions, states, steps, n, u);
    NotifiesAll(f, init, partitions, states, steps, n, u);
  }

  lemma {:induction false} NotifiesAll(
      f: Body, init: Store, partitions: set<nat>, states: seq<Sys>, steps: seq<Step>, n: nat, u: nat)
    requires IsRun(f, init, partitions, states, steps) && n <= |steps|
    ensures Trace(f, init, partitions, states, steps, n, BackFrom(u)) + ToNotify(states[n], u) == Notified(states[n], u)
  {
    hide SysInv, Enabled, Apply, EventOf, Next, Seen, ToNotify, Notified;
    if n == 0 {
      NoTxs(partitions, init, u);
    } else {
      var m := n - 1;
      NotifiesAll(f, init, partitions, states, steps, m, u);
      RunIsSafe(f, init, partitions, states, steps, m);
      NotifyListStep(f, init, states[m], steps[m], u);
      Assoc(Trace(f, init, partitions, states, steps, m, BackFrom(u)),
            Seen(BackFrom(u), EventAt(f, init, partitions, states, steps, m)), ToNotify(states[n], u));
    }
  }
}
