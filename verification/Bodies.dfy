/** Bodies and aborts over whole runs: the body of an action runs once if its transaction was
    not aborted when the worker came to it, and not at all otherwise; a body that fails, and
    nothing else, makes its worker abort the transaction before it posts. */
module ProtocolBodies {
  import opened KeyWrappers
  import opened LockTables
  import opened LockOrder
  import opened Sequences
  import opened Partitions
  import opened Transactions
  import opened SerialData
  import opened Protocol
  import opened ProtocolRuns

  // What the worker of a partition does with one action
  datatype Deed = StartsLive | RunsBody | FailsBody | AsksForAbort

  ghost predicate Does(s: Sys, step: Step, deed: Deed, a: Action)
    requires Guard(s, step)
  {
    match deed
    case StartsLive => step.ServeOne? && s.parts[step.p].pc.todo[0] == a && !IsAborted(s, a.tid)
    case RunsBody => step.RunBody? && s.parts[step.p].pc.a == a
    case FailsBody => step.RunBody? && s.parts[step.p].pc.a == a && step.err
    case AsksForAbort => step.MarkAbort? && s.parts[step.p].pc.a == a
  }

  // How often that happens in the first n steps of a run
  ghost function Deeds(f: Body, init: Store, partitions: set<nat>, states: seq<Sys>, steps: seq<Step>, n: nat,
      deed: Deed, a: Action): nat
    requires IsRun(f, init, partitions, states, steps) && n <= |steps|
  {
    if n == 0 then 0
    else
      assert Next(f, states[n - 1], steps[n - 1], states[n]);
      Deeds(f, init, partitions, states, steps, n - 1, deed, a)
      + if Does(states[n - 1], steps[n - 1], deed, a) then 1 else 0
  }

  // The worker is inside the body of the action
  ghost predicate InBody(parts: Parts, a: Action) {
    a.part in parts && parts[a.part].pc.Exec? && parts[a.part].pc.a == a
  }

  // The body has failed, and the transaction has not been told yet
  ghost predicate OwesAbort(parts: Parts, a: Action) {
    a.part in parts && parts[a.part].pc.Post? && parts[a.part].pc.a == a && parts[a.part].pc.err
  }

  function One(b: bool): nat { if b then 1 else 0 }

  // Starting and running balance, and so do failing and asking for the abort
  ghost predicate Balances(s: Sys, step: Step, parts': Parts, a: Action)
    requires Guard(s, step)
  {
    && One(InBody(s.parts, a)) + One(Does(s, step, StartsLive, a))
         == One(InBody(parts', a)) + One(Does(s, step, RunsBody, a))
    && One(OwesAbort(s.parts, a)) + One(Does(s, step, FailsBody, a))
         == One(OwesAbort(parts', a)) + One(Does(s, step, AsksForAbort, a))
  }

  // The partition whose worker makes the step
  ghost predicate WorkerOf(step: Step, p: nat) {
    match step
    case Take(q) => p == q
    case DrainOne(q) => p == q
    case ServeEnd(q) => p == q
    case ServeOne(q) => p == q
    case RunBody(q, _, _) => p == q
    case MarkAbort(q) => p == q
    case PostAction(q) => p == q
    case ToInput(q) => p == q
    case PopNothing(q) => p == q
    case _ => false
  }

  // No worker but the one that makes the step is elsewhere after it
  lemma OtherWorkers(f: Body, s: Sys, step: Step, p: nat)
    requires Enabled(s, step) && !WorkerOf(step, p)
    ensures p in Apply(f, s, step).parts <==> p in s.parts
    ensures p in s.parts ==> Apply(f, s, step).parts[p].pc == s.parts[p].pc
  {
    hide WfActions, CanDrain, Drain, TakeInput, TerminalData, ExecData, BeginData, NewTx, SentToParts;
  }

  lemma OthersDo(f: Body, init: Store, s: Sys, step: Step, deed: Deed, a: Action)
    requires SysInv(f, init, s) && Enabled(s, step) && !WorkerOf(step, a.part)
    ensures !Does(s, step, deed, a)
  {
    hide SysInv, WfActions, CanDrain;
    if step.ServeOne? || step.RunBody? || step.MarkAbort? { WorkerAt(f, init, s, step.p); }
  }

  lemma OthersBalance(f: Body, init: Store, s: Sys, step: Step, a: Action)
    requires SysInv(f, init, s) && Enabled(s, step) && !WorkerOf(step, a.part)
    ensures Balances(s, step, Apply(f, s, step).parts, a)
  {
    hide SysInv, Apply, Guard, Asserts, Does, WorkerOf;
    OtherWorkers(f, s, step, a.part);
    forall deed ensures !Does(s, step, deed, a) { OthersDo(f, init, s, step, deed, a); }
  }

  lemma WorkerBalances(f: Body, init: Store, s: Sys, step: Step, a: Action)
    requires SysInv(f, init, s) && Enabled(s, step) && WorkerOf(step, a.part)
    ensures Balances(s, step, Apply(f, s, step).parts, a)
  {
    hide SysInv, WfActions, CanDrain, ExecData, AcquireAll, ReleaseKeys, Wake, BodyEffect, PositionOf, WithoutAt;
  }

  lemma StepBalances(f: Body, init: Store, s: Sys, step: Step, a: Action)
    requires SysInv(f, init, s) && Enabled(s, step)
    ensures Balances(s, step, Apply(f, s, step).parts, a)
  {
    if WorkerOf(step, a.part) {
      WorkerBalances(f, init, s, step, a);
    } else {
      OthersBalance(f, init, s, step, a);
    }
  }

  /** Over every run: an action whose transaction was not aborted when the worker came to it is
      either inside its body or has run it, and one whose transaction was aborted never enters
      its body; a failed body is followed by exactly one request for the abort, and without a
      failed body there is none. */
  lemma {:induction false} BodiesBalance(
      f: Body, init: Store, partitions: set<nat>, states: seq<Sys>, steps: seq<Step>, n: nat, a: Action)
    requires IsRun(f, init, partitions, states, steps) && n <= |steps|
    ensures Deeds(f, init, partitions, states, steps, n, StartsLive, a)
        == Deeds(f, init, partitions, states, steps, n, RunsBody, a) + One(InBody(states[n].parts, a))
    ensures Deeds(f, init, partitions, states, steps, n, FailsBody, a)
        == Deeds(f, init, partitions, states, steps, n, AsksForAbort, a) + One(OwesAbort(states[n].parts, a))
  {
    hide SysInv, Enabled, Apply, InBody, OwesAbort, Does, Next, Guard;
    if n == 0 {
      NobodyWorks(partitions, init, a);
    } else {
      BodiesBalance(f, init, partitions, states, steps, n - 1, a);
      RunIsSafe(f, init, partitions, states, steps, n - 1);
      StepBalances(f, init, states[n - 1], steps[n - 1], a);
    }
  }

  lemma NobodyWorks(partitions: set<nat>, init: Store, a: Action)
    ensures !InBody(Init(partitions, init).parts, a) && !OwesAbort(Init(partitions, init).parts, a)
  {
  }

  // An action that has posted has left its body and owes nothing
  lemma PostedOwesNothing(f: Body, init: Store, s: Sys, a: Action)
    requires SysInv(f, init, s) && Reached(s, PostedNow(a))
    ensures !InBody(s.parts, a) && !OwesAbort(s.parts, a)
  {
    hide SysInv;
    WorkerAt(f, init, s, a.part);
  }

  // Every step in which a worker comes to an action is a milestone, with or without the abort
  lemma {:induction false} StartedOnce(
      f: Body, init: Store, partitions: set<nat>, states: seq<Sys>, steps: seq<Step>, n: nat, a: Action)
    requires IsRun(f, init, partitions, states, steps) && n <= |steps|
    ensures Deeds(f, init, partitions, states, steps, n, StartsLive, a)
         <= Times(f, init, partitions, states, steps, n, ServedNow(a))
  {
    hide Asserts, Apply, IsAborted;
    if n > 0 {
      StartedOnce(f, init, partitions, states, steps, n - 1, a);
      assert Next(f, states[n - 1], steps[n - 1], states[n]);
    }
  }

  /** When an action has posted, its body has run at most once, and each failure of it has
      been turned into one request to abort its transaction, made before the post. */
  lemma PostedHasRun(
      f: Body, init: Store, partitions: set<nat>, states: seq<Sys>, steps: seq<Step>, n: nat, a: Action)
    requires IsRun(f, init, partitions, states, steps) && n <= |steps| && Reached(states[n], PostedNow(a))
    ensures Deeds(f, init, partitions, states, steps, n, RunsBody, a)
         == Deeds(f, init, partitions, states, steps, n, StartsLive, a) <= 1
    ensures Deeds(f, init, partitions, states, steps, n, FailsBody, a)
         == Deeds(f, init, partitions, states, steps, n, AsksForAbort, a)
  {
    hide SysInv, Reached, InBody, OwesAbort, Times, Deeds;
    RunIsSafe(f, init, partitions, states, steps, n);
    PostedOwesNothing(f, init, states[n], a);
    BodiesBalance(f, init, partitions, states, steps, n, a);
    StartedOnce(f, init, partitions, states, steps, n, a);
    ExactlyOnce(f, init, partitions, states, steps, n, ServedNow(a));
  }

  // ---------------------------------------------------------------------------
  // Failures decide
  // ---------------------------------------------------------------------------

  // At step i the body of an action of this transaction has failed
  ghost predicate FailedAt(states: seq<Sys>, steps: seq<Step>, i: nat, u: nat) {
    && i < |steps| < |states| && steps[i].RunBody? && steps[i].err
    && steps[i].p in states[i].parts
    && var pc := states[i].parts[steps[i].p].pc;
    && pc.Exec? && pc.a.tid == u
  }

  // What has been counted has happened
  lemma {:induction false} DeedDone(
      f: Body, init: Store, partitions: set<nat>, states: seq<Sys>, steps: seq<Step>, n: nat, deed: Deed, a: Action)
        returns (i: nat)
    requires IsRun(f, init, partitions, states, steps) && n <= |steps|
    requires Deeds(f, init, partitions, states, steps, n, deed, a) > 0
    ensures i < n && Next(f, states[i], steps[i], states[i + 1]) && Does(states[i], steps[i], deed, a)
  {
    hide Guard, Asserts, Apply, Does;
    assert Next(f, states[n - 1], steps[n - 1], states[n]);
    if Does(states[n - 1], steps[n - 1], deed, a) {
      i := n - 1;
    } else {
      i := DeedDone(f, init, partitions, states, steps, n - 1, deed, a);
    }
  }

  lemma {:induction false} DeedCounts(
      f: Body, init: Store, partitions: set<nat>, states: seq<Sys>, steps: seq<Step>, i: nat, n: nat,
      deed: Deed, a: Action)
    requires IsRun(f, init, partitions, states, steps) && i < n <= |steps|
    requires Next(f, states[i], steps[i], states[i + 1]) && Does(states[i], steps[i], deed, a)
    ensures Deeds(f, init, partitions, states, steps, n, deed, a) > 0
  {
    hide Guard, Asserts, Apply, Does;
    if i + 1 < n { DeedCounts(f, init, partitions, states, steps, i, n - 1, deed, a); }
  }

  // An action that has been in a body has posted by the time its rendezvous point runs
  lemma BodyThenPosted(
      f: Body, init: Store, partitions: set<nat>, states: seq<Sys>, steps: seq<Step>, i: nat, n: nat, a: Action)
    requires IsRun(f, init, partitions, states, steps) && i < n <= |steps|
    requires Next(f, states[i], steps[i], states[i + 1]) && Does(states[i], steps[i], RunsBody, a)
    requires a.tid in states[n].txs && states[n].txs[a.tid].mode == Running
    ensures Reached(states[n], PostedNow(a))
  {
    hide SysInv, Apply, Reached, Asserts, Next;
    RunIsSafe(f, init, partitions, states, steps, i);
    InBodyIsEnqueued(f, init, states[i], steps[i], a);
    var e := WhenPassed(f, init, partitions, states, steps, i, Enqueued(a));
    StaysReached(f, init, partitions, states, steps, e, n, Enqueued(a));
    RunIsSafe(f, init, partitions, states, steps, n);
    EnqueuedIsCarried(f, init, states[n], a);
    TerminalFindsPosted(f, init, states[n], a.tid);
  }

  lemma InBodyIsEnqueued(f: Body, init: Store, s: Sys, step: Step, a: Action)
    requires SysInv(f, init, s) && Guard(s, step) && Does(s, step, RunsBody, a)
    ensures Reached(s, Enqueued(a))
  {
    hide SysInv;
    WorkerAt(f, init, s, step.p);
  }

  lemma EnqueuedIsCarried(f: Body, init: Store, s: Sys, a: Action)
    requires SysInv(f, init, s) && Reached(s, Enqueued(a))
    ensures a.tid in s.txs && a in s.txs[a.tid].actions
  {
    hide PartInv, TxInv, DataInv, Logged, StageOf;
    assert PlaceOk(s.txs, a.part, s.parts[a.part].place, a);
  }

  /** Failures decide: when a rendezvous point runs, midway or terminal, its transaction is
      aborted exactly if the body of one of its actions has failed.  So the terminal one
      commits exactly if no body has failed and the storage manager commits. */
  lemma AbortedIffFailed(
      f: Body, init: Store, partitions: set<nat>, states: seq<Sys>, steps: seq<Step>, n: nat, u: nat)
    requires IsRun(f, init, partitions, states, steps) && n <= |steps|
    requires u in states[n].txs && states[n].txs[u].mode == Running
    ensures states[n].txs[u].aborted <==> exists i :: 0 <= i < n && FailedAt(states, steps, i, u)
  {
    hide SysInv, Apply, Reached, Deeds, Asserts;
    AbortedIffAsked(f, init, partitions, states, steps, n, u);
    if IsAborted(states[n], u) {
      var j :| 0 <= j < n && Next(f, states[j], steps[j], states[j + 1]) && AsksAbort(states[j], steps[j], u);
      var a := states[j].parts[steps[j].p].pc.a;
      DeedCounts(f, init, partitions, states, steps, j, n, AsksForAbort, a);
      BodiesBalance(f, init, partitions, states, steps, n, a);
      var i := DeedDone(f, init, partitions, states, steps, n, FailsBody, a);
      assert FailedAt(states, steps, i, u);
    }
    if exists i :: 0 <= i < n && FailedAt(states, steps, i, u) {
      var i :| 0 <= i < n && FailedAt(states, steps, i, u);
      var a := states[i].parts[steps[i].p].pc.a;
      assert Next(f, states[i], steps[i], states[i + 1]);
      BodyThenPosted(f, init, partitions, states, steps, i, n, a);
      PostedHasRun(f, init, partitions, states, steps, n, a);
      DeedCounts(f, init, partitions, states, steps, i, n, FailsBody, a);
      var j := DeedDone(f, init, partitions, states, steps, n, AsksForAbort, a);
      assert AsksAbort(states[j], steps[j], u);
    }
  }

  /** So the outcome can be read off the bodies and the storage manager alone. */
  lemma CommitsIffNobodyFailed(
      f: Body, init: Store, partitions: set<nat>, states: seq<Sys>, steps: seq<Step>, n: nat)
    requires IsRun(f, init, partitions, states, steps) && n < |steps| && steps[n].Terminal?
    ensures var u := steps[n].u;
            && u in states[n + 1].txs && states[n + 1].txs[u].outcome != Undecided
            && (states[n + 1].txs[u].outcome == Committed <==>
                  steps[n].commitOk && !exists i :: 0 <= i < n && FailedAt(states, steps, i, u))
  {
    hide SysInv, Apply, Reached, Asserts, FailedAt;
    assert Next(f, states[n], steps[n], states[n + 1]);
    AbortedIffFailed(f, init, partitions, states, steps, n, steps[n].u);
    TerminalDecides(f, init, partitions, states, steps, n);
  }
}
