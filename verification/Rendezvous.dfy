/** Rendezvous points over whole runs: each one of a transaction, midway or terminal, runs
    exactly once, after all its actions have posted; and at the end every action that the
    transaction carries has been sent back to its partition exactly once. */
module ProtocolRendezvous {
  import opened KeyWrappers
  import opened LockTables
  import opened LockOrder
  import opened Sequences
  import opened Partitions
  import opened Transactions
  import opened SerialData
  import opened Protocol
  import opened ProtocolRuns

  // How many midway rendezvous points a transaction has been started with
  function Planned(steps: seq<Step>, n: nat, u: nat): nat
    requires n <= |steps|
  {
    if n == 0 then 0
    else Planned(steps, n - 1, u) + if steps[n - 1].Begin? && steps[n - 1].u == u then steps[n - 1].midways else 0
  }

  // A midway rendezvous point runs that has `left - 1` more midway points after it
  ghost predicate RunsMidway(s: Sys, step: Step, u: nat, left: nat) {
    step.Midway? && step.u == u && u in s.txs && s.txs[u].midways == left
  }

  // How often that has happened
  ghost function MidwayRuns(states: seq<Sys>, steps: seq<Step>, n: nat, u: nat, left: nat): nat
    requires n <= |steps| <= |states|
  {
    if n == 0 then 0
    else
      MidwayRuns(states, steps, n - 1, u, left)
      + if RunsMidway(states[n - 1], steps[n - 1], u, left) then 1 else 0
  }

  // Only a start and a midway rendezvous point change how many there are to come
  ghost predicate MidwaysMove(txs: Txs, txs': Txs, step: Step, u: nat) {
    if u in txs then
      && u in txs' && !(step.Begin? && step.u == u)
      && (if step.Midway? && step.u == u then txs[u].midways > 0 && txs'[u].midways == txs[u].midways - 1
          else txs'[u].midways == txs[u].midways)
    else
      && !(step.Midway? && step.u == u)
      && (u in txs' <==> step.Begin? && step.u == u)
      && (u in txs' ==> txs'[u].midways == step.midways)
  }

  lemma StepMovesMidways(f: Body, s: Sys, step: Step, u: nat)
    requires Enabled(s, step)
    ensures MidwaysMove(s.txs, Apply(f, s, step).txs, step, u)
  {
    hide WfActions, CanDrain, Drain, TakeInput, TerminalData, ExecData, Enqueue, EnqueueCommit, BeginData, BodyEffect,
        StageOf, SentToParts;
  }

  /** Every midway rendezvous point of a transaction has run exactly once if the current one
      comes after it, and not at all otherwise. */
  lemma {:induction false} MidwayRunsOnce(
      f: Body, init: Store, partitions: set<nat>, states: seq<Sys>, steps: seq<Step>, n: nat, u: nat, left: nat)
    requires IsRun(f, init, partitions, states, steps) && n <= |steps|
    ensures u in states[n].txs ==> states[n].txs[u].midways <= Planned(steps, n, u)
    ensures u !in states[n].txs ==> Planned(steps, n, u) == 0
    ensures MidwayRuns(states, steps, n, u, left) ==
              if u in states[n].txs && states[n].txs[u].midways < left <= Planned(steps, n, u) then 1 else 0
  {
    hide SysInv, Enabled, Apply, Next;
    if n == 0 {
    } else {
      MidwayRunsOnce(f, init, partitions, states, steps, n - 1, u, left);
      RunIsSafe(f, init, partitions, states, steps, n - 1);
      StepMovesMidways(f, states[n - 1], steps[n - 1], u);
    }
  }

  /** So when the terminal rendezvous point runs, all midway points have run, once each. */
  lemma TerminalComesLast(
      f: Body, init: Store, partitions: set<nat>, states: seq<Sys>, steps: seq<Step>, n: nat, left: nat)
    requires IsRun(f, init, partitions, states, steps) && n < |steps| && steps[n].Terminal?
    requires 1 <= left <= Planned(steps, n, steps[n].u)
    ensures MidwayRuns(states, steps, n, steps[n].u, left) == 1
  {
    hide SysInv, Apply, MidwayRuns, Planned;
    MidwayRunsOnce(f, init, partitions, states, steps, n, steps[n].u, left);
    RunIsSafe(f, init, partitions, states, steps, n);
    TerminalIsLast(states[n], steps[n]);
  }

  lemma TerminalIsLast(s: Sys, step: Step)
    requires Enabled(s, step) && step.Terminal?
    ensures step.u in s.txs && s.txs[step.u].midways == 0
  {
  }

  /** A midway rendezvous point, like the terminal one, finds that every action it carries has
      posted and that none has been sent back. */
  lemma MidwayFindsPosted(
      f: Body, init: Store, partitions: set<nat>, states: seq<Sys>, steps: seq<Step>, n: nat)
    requires IsRun(f, init, partitions, states, steps) && n < |steps| && steps[n].Midway?
    ensures steps[n].u in states[n].txs
    ensures forall a :: a in states[n].txs[steps[n].u].actions ==>
              Reached(states[n], PostedNow(a)) && !Reached(states[n], SentBack(a))
  {
    hide SysInv, Apply, Reached;
    RunIsSafe(f, init, partitions, states, steps, n);
    MidwayIsRunning(states[n], steps[n]);
    TerminalFindsPosted(f, init, states[n], steps[n].u);
  }

  lemma MidwayIsRunning(s: Sys, step: Step)
    requires Enabled(s, step) && step.Midway?
    ensures step.u in s.txs && s.txs[step.u].mode == Running
  {
    hide WfActions, SentToParts;
  }

  // The notification loop is through
  lemma NotifiedAll(f: Body, init: Store, s: Sys, u: nat, a: Action)
    requires SysInv(f, init, s) && u in s.txs && s.txs[u].mode == Notifying && s.txs[u].toNotify == []
    requires a in s.txs[u].actions
    ensures Reached(s, SentBack(a))
  {
    hide PartInv, TxInv, DataInv, Logged;
    IdleHasPosted(u, s.txs[u]);
    TxOwns(u, s.txs[u], a);
    assert SentOk(s.parts, s.txs[u], a);
    assert PlaceOk(s.txs, a.part, s.parts[a.part].place, a);
  }

  /** On every path, abort, commit, failed commit or lazy commit: when the notification loop of
      a transaction is through, each action that it carries has been sent back to its own
      partition exactly once. */
  lemma AllSentHome(
      f: Body, init: Store, partitions: set<nat>, states: seq<Sys>, steps: seq<Step>, n: nat, u: nat, a: Action)
    requires IsRun(f, init, partitions, states, steps) && n <= |steps|
    requires u in states[n].txs && states[n].txs[u].mode == Notifying && states[n].txs[u].toNotify == []
    requires a in states[n].txs[u].actions
    ensures Times(f, init, partitions, states, steps, n, SentBack(a)) == 1
  {
    hide SysInv, Reached, Times;
    RunIsSafe(f, init, partitions, states, steps, n);
    NotifiedAll(f, init, states[n], u, a);
    ExactlyOnce(f, init, partitions, states, steps, n, SentBack(a));
  }
}
