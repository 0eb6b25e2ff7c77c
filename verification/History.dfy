/** The serial history: the transactions that committed, in commit order, each with every one
    of its actions exactly once.  Replaying it serially lets every action see what it saw in
    the concurrent run and leaves the same store. */
module ProtocolHistory {
  import opened KeyWrappers
  import opened LockTables
  import opened LockOrder
  import opened Sequences
  import opened Partitions
  import opened Transactions
  import opened SerialData
  import opened Protocol
  import opened ProtocolRuns

  ghost predicate InLog(log: Log, a: Action) { exists i :: 0 <= i < |log| && log[i].a == a }

  ghost predicate OnceInLog(log: Log) { forall i, j :: 0 <= i < j < |log| ==> log[i].a != log[j].a }

  // An action that has left its body
  ghost predicate Left(parts: Parts, a: Action) {
    a.part in parts && a in parts[a.part].place && parts[a.part].place[a] in {Posting, Done}
  }

  // Unless it was aborted, a transaction has logged every action that has left its body
  ghost predicate LogComplete(parts: Parts, t: Tx, log: Log) {
    OnceInLog(log) && (!t.aborted ==> forall a :: a in t.actions && Left(parts, a) ==> InLog(log, a))
  }

  ghost predicate LogsComplete(parts: Parts, txs: Txs, logs: map<nat, Log>) {
    forall u :: u in logs && u in txs ==> LogComplete(parts, txs[u], logs[u])
  }

  // A commit holds exactly the actions of its transaction
  ghost predicate Whole(txs: Txs, c: Commit) {
    && c.tid in txs && txs[c.tid].outcome == Committed && OnceInLog(c.log)
    && forall a :: a in txs[c.tid].actions <==> InLog(c.log, a)
  }

  ghost predicate AllWhole(txs: Txs, committed: seq<Commit>) {
    forall i :: 0 <= i < |committed| ==> Whole(txs, committed[i])
  }

  ghost predicate HistoryInv(s: Sys) {
    LogsComplete(s.parts, s.txs, s.data.logs) && AllWhole(s.txs, s.data.committed)
  }

  // How a step that is neither a start nor a decision changes a transaction
  ghost predicate TxGoesOn(parts: Parts, t: Tx, t': Tx) {
    && (t.aborted ==> t'.aborted) && t'.outcome == t.outcome
    && (t.outcome != Undecided ==> t'.actions == t.actions)
    && (forall a :: a in t'.actions && Left(parts, a) ==> a in t.actions)
  }

  // Nobody leaves a body in this step, unless its transaction is aborted
  ghost predicate NobodyLeaves(s: Sys, s': Sys) {
    && (forall a :: Left(s'.parts, a) ==> Left(s.parts, a) || IsAborted(s, a.tid))
    && s'.data.logs == s.data.logs && s'.data.committed == s.data.committed
    && s'.txs.Keys == s.txs.Keys
    && (forall u :: u in s.txs ==> TxGoesOn(s.parts, s.txs[u], s'.txs[u]))
  }

  lemma QuietKeeps(s: Sys, s': Sys)
    requires HistoryInv(s) && NobodyLeaves(s, s')
    requires forall u, a :: u in s'.txs && a in s'.txs[u].actions ==> a.tid == u
    ensures HistoryInv(s')
  {
    hide OnceInLog, InLog, Left;
    forall u | u in s'.data.logs && u in s'.txs ensures LogComplete(s'.parts, s'.txs[u], s'.data.logs[u]) {
      assert LogComplete(s.parts, s.txs[u], s.data.logs[u]);
    }
    forall i | 0 <= i < |s'.data.committed| ensures Whole(s'.txs, s'.data.committed[i]) {
      assert Whole(s.txs, s.data.committed[i]);
    }
  }

  lemma GoesLeaves(parts: Parts, parts': Parts, a: Action, from: Place, to: Place, b: Action)
    requires Goes(parts, parts', a, from, to) && (to in {Posting, Done} ==> from in {Posting, Done})
    ensures Left(parts', b) ==> Left(parts, b)
  {
  }

  lemma ServeLeaves(parts: Parts, p: nat, aborted: bool, b: Action)
    requires p in parts && parts[p].pc.Serve? && parts[p].pc.todo != []
    ensures var parts' := parts[p := ServeNext(parts[p], aborted)];
            Left(parts', b) ==> Left(parts, b) || (aborted && b == parts[p].pc.todo[0])
  {
  }

  lemma DrainLeaves(parts: Parts, p: nat, part': Part, a: Action, ready: seq<Action>, b: Action)
    requires p in parts && part'.place == DrainPlaces(parts[p].place, a, ready)
    ensures Left(parts[p := part'], b) ==> Left(parts, b)
  {
  }

  lemma SamePlacesLeave(parts: Parts, parts': Parts, b: Action)
    requires parts'.Keys == parts.Keys && forall p :: p in parts ==> parts'[p].place == parts[p].place
    ensures Left(parts', b) ==> Left(parts, b)
  {
  }

  lemma EnqueueLeaves(parts: Parts, a: Action, b: Action)
    requires a.part in parts
    ensures Left(parts[a.part := Enqueue(parts[a.part], a)], b) ==> Left(parts, b)
  {
  }

  ghost predicate IsQuiet(step: Step) { !step.Begin? && !step.RunBody? && !step.Terminal? }

  lemma LeftAfter(f: Body, init: Store, s: Sys, step: Step, b: Action)
    requires SysInv(f, init, s) && Enabled(s, step) && IsQuiet(step)
    ensures Left(Apply(f, s, step).parts, b) ==> Left(s.parts, b) || IsAborted(s, b.tid)
  {
    hide SysInv, Left, StepGoes, CanDrain, WfActions, Drain, TakeInput, Enqueue, EnqueueCommit, ServeNext, Goes,
        DrainPlaces, At, OrderAt;
    match step
    case Send(u) => EnqueueLeaves(s.parts, s.txs[u].toSend[0], b);
    case DrainOne(p) => DrainStepLeaves(f, init, s, p, b);
    case ServeOne(p) => ServeLeaves(s.parts, p, s.txs[s.parts[p].pc.todo[0].tid].aborted, b);
    case Take(p) => MovesLeave(f, init, s, step, b);
    case PostAction(p) => MovesLeave(f, init, s, step, b);
    case SendHome(u) => MovesLeave(f, init, s, step, b);
    case RunBody(_, _, _) =>
    case Begin(_, _, _) =>
    case Terminal(_, _, _, _) =>
    case _ => OthersLeave(f, s, step, b);
  }

  lemma OthersLeave(f: Body, s: Sys, step: Step, b: Action)
    requires Enabled(s, step)
    requires || step.ToInput? || step.PopNothing? || step.ServeEnd? || step.MarkAbort?
             || step.Midway? || step.Harden? || step.Flushed?
    ensures Left(Apply(f, s, step).parts, b) ==> Left(s.parts, b)
  {
    hide WfActions, Left, SentToParts, RunMidway, FlushDone, SetAbort, CanDrain, Drain, TakeInput, Enqueue,
        EnqueueCommit, TerminalData, ExecData, BeginData, NewTx, RunTerminal, PostOne;
    SamePlacesLeave(s.parts, Apply(f, s, step).parts, b);
  }

  lemma DrainStepLeaves(f: Body, init: Store, s: Sys, p: nat, b: Action)
    requires SysInv(f, init, s) && Enabled(s, DrainOne(p))
    ensures Left(Apply(f, s, DrainOne(p)).parts, b) ==> Left(s.parts, b)
  {
    hide PartInv, TxInv, DataInv, Logged, Linked, CanDrain, Drain, DrainPlaces, Left;
    DrainKeeps(s.parts[p]);
    DrainLeaves(s.parts, p, Drain(s.parts[p]), s.parts[p].committed[0], Drain(s.parts[p]).pc.todo, b);
  }

  lemma MovesLeave(f: Body, init: Store, s: Sys, step: Step, b: Action)
    requires SysInv(f, init, s) && Enabled(s, step) && (step.Take? || step.PostAction? || step.SendHome?)
    ensures Left(Apply(f, s, step).parts, b) ==> Left(s.parts, b)
  {
    hide SysInv, Left, Apply, EventOf, Goes, Guard, Asserts;
    StepMoves(f, init, s, step);
    var parts' := Apply(f, s, step).parts;
    match step
    case Take(p) =>
      var a, pl :| pl in {Ready, Waiting} && Goes(s.parts, parts', a, InInput, pl);
      GoesLeaves(s.parts, parts', a, InInput, pl, b);
    case PostAction(_) => GoesLeaves(s.parts, parts', EventOf(s, step).a, Posting, Done, b);
    case SendHome(_) => GoesLeaves(s.parts, parts', EventOf(s, step).a, Done, InCommitted, b);
  }

  lemma LeftIsOld(parts: Parts, txs: Txs, u: nat, a: Action)
    requires Linked(parts, txs) && u in txs && a.tid == u && Left(parts, a)
    ensures a in txs[u].actions
  {
    assert PlaceOk(txs, a.part, parts[a.part].place, a);
  }

  lemma MidwayGoesOn(parts: Parts, txs: Txs, u: nat, next: seq<Action>)
    requires Linked(parts, txs) && u in txs && TxInv(u, txs[u]) && txs[u].mode == Running && txs[u].midways > 0
    requires !txs[u].aborted ==> next != [] && WfActions(u, txs[u].actions + next)
    ensures TxGoesOn(parts, txs[u], RunMidway(txs[u], next))
  {
    hide Linked, TxInv, Left, RunMidway, WfActions;
    RunMidwayInv(u, txs[u], next);
    MidwayUndecided(u, txs[u]);
    var t' := RunMidway(txs[u], next);
    forall a | a in t'.actions && Left(parts, a) ensures a in txs[u].actions {
      TxOwns(u, t', a);
      LeftIsOld(parts, txs, u, a);
    }
  }

  lemma TxOk(f: Body, init: Store, s: Sys, u: nat)
    requires SysInv(f, init, s) && u in s.txs
    ensures TxInv(u, s.txs[u])
  {
  }

  lemma SameGoesOn(parts: Parts, t: Tx, t': Tx)
    requires t'.actions == t.actions && t'.outcome == t.outcome && (t.aborted ==> t'.aborted)
    ensures TxGoesOn(parts, t, t')
  {
  }

  lemma TxsGoOn(f: Body, init: Store, s: Sys, step: Step, u: nat)
    requires SysInv(f, init, s) && Enabled(s, step) && IsQuiet(step) && u in s.txs
    ensures u in Apply(f, s, step).txs && TxGoesOn(s.parts, s.txs[u], Apply(f, s, step).txs[u])
  {
    hide PartInv, DataInv, Linked, Logged, TxInv, Left, TxGoesOn, WfActions, CanDrain, Drain, TakeInput, Enqueue,
        EnqueueCommit, RunMidway;
    if step.Midway? && step.u == u {
      MidwayGoesOn(s.parts, s.txs, u, step.next);
    } else {
      SameGoesOn(s.parts, s.txs[u], Apply(f, s, step).txs[u]);
    }
  }

  lemma OwnActions(f: Body, init: Store, s: Sys)
    requires SysInv(f, init, s)
    ensures forall u, a :: u in s.txs && a in s.txs[u].actions ==> a.tid == u
  {
    hide SysInv, TxInv;
    forall u, a | u in s.txs && a in s.txs[u].actions ensures a.tid == u {
      TxOk(f, init, s, u);
      TxOwns(u, s.txs[u], a);
    }
  }

  lemma QuietStepNobody(f: Body, init: Store, s: Sys, step: Step)
    requires SysInv(f, init, s) && Enabled(s, step) && IsQuiet(step)
    ensures NobodyLeaves(s, Apply(f, s, step))
  {
    hide SysInv, Enabled, Apply, Left, TxGoesOn, IsAborted;
    var s' := Apply(f, s, step);
    QuietData(f, init, s, step);
    forall a ensures Left(s'.parts, a) ==> Left(s.parts, a) || IsAborted(s, a.tid) {
      LeftAfter(f, init, s, step, a);
    }
    forall u | u in s.txs ensures TxGoesOn(s.parts, s.txs[u], s'.txs[u]) {
      TxsGoOn(f, init, s, step, u);
    }
  }

  lemma QuietStepKeeps(f: Body, init: Store, s: Sys, step: Step)
    requires SysInv(f, init, s) && Enabled(s, step) && IsQuiet(step) && HistoryInv(s)
    ensures HistoryInv(Apply(f, s, step))
  {
    hide SysInv, Guard, Asserts, Apply, HistoryInv, NobodyLeaves;
    QuietStepNobody(f, init, s, step);
    StepKeeps(f, init, s, step);
    OwnActions(f, init, Apply(f, s, step));
    QuietKeeps(s, Apply(f, s, step));
  }

  lemma QuietData(f: Body, init: Store, s: Sys, step: Step)
    requires SysInv(f, init, s) && Enabled(s, step) && IsQuiet(step)
    ensures Apply(f, s, step).data == s.data && Apply(f, s, step).txs.Keys == s.txs.Keys
  {
    hide SysInv, WfActions, CanDrain, Drain, TakeInput, Enqueue, EnqueueCommit, RunMidway;
  }

  // ---------------------------------------------------------------------------
  // Starting, executing, deciding
  // ---------------------------------------------------------------------------

  lemma BeginHistory(f: Body, init: Store, s: Sys, u: nat, midways: nat, actions: seq<Action>)
    requires SysInv(f, init, s) && Enabled(s, Begin(u, midways, actions)) && HistoryInv(s)
    ensures HistoryInv(Apply(f, s, Begin(u, midways, actions)))
  {
    hide PartInv, TxInv, DataInv, Logged, WfActions, InLog, OnceInLog, Left;
    var s' := Apply(f, s, Begin(u, midways, actions));
    forall v | v in s'.data.logs && v in s'.txs ensures LogComplete(s'.parts, s'.txs[v], s'.data.logs[v]) {
      if v != u {
        assert LogComplete(s.parts, s.txs[v], s.data.logs[v]);
      } else {
        BeginLogs(f, init, s, u, midways, actions);
      }
    }
    forall i | 0 <= i < |s'.data.committed| ensures Whole(s'.txs, s'.data.committed[i]) {
      assert Whole(s.txs, s.data.committed[i]);
    }
  }

  lemma BeginLogs(f: Body, init: Store, s: Sys, u: nat, midways: nat, actions: seq<Action>)
    requires SysInv(f, init, s) && Guard(s, Begin(u, midways, actions))
    ensures LogComplete(s.parts, NewTx(midways, actions), [])
  {
    hide PartInv, TxInv, DataInv, Logged, Linked, Left;
    LeftIsStarted(s.parts, s.txs);
  }

  lemma LeftIsStarted(parts: Parts, txs: Txs)
    requires Linked(parts, txs)
    ensures forall a :: Left(parts, a) ==> a.tid in txs
  {
    forall a | Left(parts, a) ensures a.tid in txs {
      assert PlaceOk(txs, a.part, parts[a.part].place, a);
    }
  }

  lemma LogGrows(log: Log, e: Effect)
    requires OnceInLog(log) && !InLog(log, e.a)
    ensures OnceInLog(log + [e]) && forall a :: InLog(log + [e], a) <==> InLog(log, a) || a == e.a
  {
    var both := log + [e];
    assert both[|log|] == e;
    assert forall i :: 0 <= i < |log| ==> both[i] == log[i];
  }

  lemma BodyHistory(f: Body, init: Store, s: Sys, p: nat, partial: map<Key, int>, err: bool)
    requires SysInv(f, init, s) && Enabled(s, RunBody(p, partial, err)) && HistoryInv(s)
    ensures HistoryInv(Apply(f, s, RunBody(p, partial, err)))
  {
    hide SysInv, WfActions, InLog, OnceInLog, Left;
    var s' := Apply(f, s, RunBody(p, partial, err));
    var a := s.parts[p].pc.a;
    var e := BodyEffect(f, s, a, partial, err);
    BodyIsNew(f, init, s, p);
    BodyLeaves(s.parts, p, err);
    assert LogComplete(s.parts, s.txs[a.tid], s.data.logs[a.tid]);
    LogGrows(s.data.logs[a.tid], e);
    OwnActions(f, init, s);
    forall v | v in s'.data.logs && v in s'.txs ensures LogComplete(s'.parts, s'.txs[v], s'.data.logs[v]) {
      assert LogComplete(s.parts, s.txs[v], s.data.logs[v]);
    }
    forall i | 0 <= i < |s'.data.committed| ensures Whole(s'.txs, s'.data.committed[i]) {
      assert Whole(s.txs, s.data.committed[i]);
    }
  }

  lemma BodyLeaves(parts: Parts, p: nat, err: bool)
    requires p in parts && parts[p].pc.Exec?
    ensures forall b :: Left(parts[p := EndExec(parts[p], err)], b) ==> Left(parts, b) || b == parts[p].pc.a
  {
  }

  // An action that is still executing is not in the log
  lemma BodyIsNew(f: Body, init: Store, s: Sys, p: nat)
    requires SysInv(f, init, s) && p in s.parts && s.parts[p].pc.Exec? && s.parts[p].pc.a.tid in s.data.logs
    ensures !InLog(s.data.logs[s.parts[p].pc.a.tid], s.parts[p].pc.a)
  {
    WorkerAt(f, init, s, p);
    hide PartInv, TxInv, DataInv, Linked;
    var a := s.parts[p].pc.a;
    var u := a.tid;
    forall i | 0 <= i < |s.data.logs[u]| ensures s.data.logs[u][i].a != a {
      assert EffectOk(f, s.parts, s.txs[u], u, s.data.logs[u][i]);
    }
  }

  // When the terminal rendezvous point runs, the log has exactly the actions that it carries
  lemma LogIsWhole(f: Body, init: Store, s: Sys, u: nat)
    requires SysInv(f, init, s) && HistoryInv(s) && u in s.txs && u in s.data.logs
    requires s.txs[u].mode == Running && !s.txs[u].aborted
    ensures OnceInLog(s.data.logs[u])
    ensures forall a :: a in s.txs[u].actions <==> InLog(s.data.logs[u], a)
  {
    hide PartInv, TxInv, DataInv;
    assert LogComplete(s.parts, s.txs[u], s.data.logs[u]);
    IdleHasPosted(u, s.txs[u]);
    forall a | a in s.txs[u].actions ensures InLog(s.data.logs[u], a) {
      TxOwns(u, s.txs[u], a);
      assert SentOk(s.parts, s.txs[u], a);
      assert PlaceOk(s.txs, a.part, s.parts[a.part].place, a);
    }
    forall i | 0 <= i < |s.data.logs[u]| ensures s.data.logs[u][i].a in s.txs[u].actions {
      var e := s.data.logs[u][i];
      assert EffectOk(f, s.parts, s.txs[u], u, e);
      assert PlaceOk(s.txs, e.a.part, s.parts[e.a.part].place, e.a);
    }
  }

  lemma TerminalHistory(f: Body, init: Store, s: Sys, u: nat, commitOk: bool, lazy: bool, lsn: nat)
    requires SysInv(f, init, s) && Enabled(s, Terminal(u, commitOk, lazy, lsn)) && HistoryInv(s)
    ensures HistoryInv(Apply(f, s, Terminal(u, commitOk, lazy, lsn)))
  {
    hide SysInv, WfActions, InLog, OnceInLog, Left;
    var s' := Apply(f, s, Terminal(u, commitOk, lazy, lsn));
    RunningUndecided(f, init, s, u);
    if !s.txs[u].aborted { LogIsWhole(f, init, s, u); }
    forall v | v in s'.data.logs && v in s'.txs ensures LogComplete(s'.parts, s'.txs[v], s'.data.logs[v]) {
      assert LogComplete(s.parts, s.txs[v], s.data.logs[v]);
    }
    forall i | 0 <= i < |s'.data.committed| ensures Whole(s'.txs, s'.data.committed[i]) {
      if i < |s.data.committed| { assert Whole(s.txs, s.data.committed[i]); }
    }
  }

  lemma HistoryStep(f: Body, init: Store, s: Sys, step: Step)
    requires SysInv(f, init, s) && Enabled(s, step) && HistoryInv(s)
    ensures HistoryInv(Apply(f, s, step))
  {
    hide SysInv, Enabled, Apply, HistoryInv;
    match step
    case Begin(u, midways, actions) => BeginHistory(f, init, s, u, midways, actions);
    case RunBody(p, partial, err) => BodyHistory(f, init, s, p, partial, err);
    case Terminal(u, commitOk, lazy, lsn) => TerminalHistory(f, init, s, u, commitOk, lazy, lsn);
    case _ => QuietStepKeeps(f, init, s, step);
  }

  // ---------------------------------------------------------------------------
  // Runs
  // ---------------------------------------------------------------------------

  function Tids(committed: seq<Commit>): seq<nat> {
    if committed == [] then [] else Tids(committed[..|committed| - 1]) + [committed[|committed| - 1].tid]
  }

  // The transactions that a run commits, in the order of their terminal rendezvous points
  ghost function CommitOrder(
      f: Body, init: Store, partitions: set<nat>, states: seq<Sys>, steps: seq<Step>, n: nat): seq<nat>
    requires IsRun(f, init, partitions, states, steps) && n <= |steps|
  {
    if n == 0 then []
    else
      var before := CommitOrder(f, init, partitions, states, steps, n - 1);
      if steps[n - 1].Terminal? && steps[n - 1].commitOk && !IsAborted(states[n - 1], steps[n - 1].u)
      then before + [steps[n - 1].u] else before
  }

  lemma CommittedStep(f: Body, init: Store, s: Sys, step: Step)
    requires SysInv(f, init, s) && Enabled(s, step)
    ensures Tids(Apply(f, s, step).data.committed) ==
              Tids(s.data.committed)
              + if step.Terminal? && step.commitOk && !IsAborted(s, step.u) then [step.u] else []
  {
    hide SysInv, WfActions;
    if step.Terminal? && step.commitOk && !IsAborted(s, step.u) {
      var committed' := s.data.committed + [Commit(step.u, s.data.logs[step.u])];
      assert committed'[..|committed'| - 1] == s.data.committed;
    } else {
      SameCommitted(f, s, step);
    }
  }

  lemma SameCommitted(f: Body, s: Sys, step: Step)
    requires Enabled(s, step) && !(step.Terminal? && step.commitOk && !IsAborted(s, step.u))
    ensures Apply(f, s, step).data.committed == s.data.committed
  {
    hide WfActions, CanDrain, Drain, TakeInput, Enqueue, EnqueueCommit, RunMidway;
  }

  lemma {:induction false} HistoryOfRun(
      f: Body, init: Store, partitions: set<nat>, states: seq<Sys>, steps: seq<Step>, n: nat)
    requires IsRun(f, init, partitions, states, steps) && n <= |steps|
    ensures HistoryInv(states[n])
    ensures Tids(states[n].data.committed) == CommitOrder(f, init, partitions, states, steps, n)
  {
    hide SysInv, Enabled, Apply, Next, HistoryInv;
    if n == 0 {
      FirstHistory(init, partitions);
    } else {
      HistoryOfRun(f, init, partitions, states, steps, n - 1);
      RunIsSafe(f, init, partitions, states, steps, n - 1);
      HistoryStep(f, init, states[n - 1], steps[n - 1]);
      CommittedStep(f, init, states[n - 1], steps[n - 1]);
    }
  }

  lemma FirstHistory(init: Store, partitions: set<nat>)
    ensures HistoryInv(Init(partitions, init)) && Init(partitions, init).data.committed == []
  {
  }

  /** Serializability in commit order, over every run.  The committed transactions, in the
      order of their terminal rendezvous points, form a serial history: each consists of its
      own actions, once each, and every action sees in the serial run exactly what it saw in
      the concurrent one and so writes the same.  When no transaction is undecided, the store
      is the one that the serial history leaves: aborted transactions have left no trace. */
  lemma RunIsSerializable(
      f: Body, init: Store, partitions: set<nat>, states: seq<Sys>, steps: seq<Step>, n: nat)
    requires IsRun(f, init, partitions, states, steps) && n <= |steps|
    ensures var d := states[n].data;
            && SerialRun(f, init, d.committed)
            && Tids(d.committed) == CommitOrder(f, init, partitions, states, steps, n)
            && AllWhole(states[n].txs, d.committed)
            && (AllDecided(states[n].txs) ==> forall x :: Read(d.store, x) == Read(Base(init, d.committed), x))
  {
    hide PartsInv, TxsInv, Linked, Next, StoreInv, SerialRun, Base, CommitOrder, LogsComplete, EffectOk;
    RunIsSafe(f, init, partitions, states, steps, n);
    HistoryOfRun(f, init, partitions, states, steps, n);
    var s := states[n];
    if AllDecided(s.txs) {
      assert s.data.logs == map[] by { NoLogs(f, s.parts, s.txs, s.data.logs); }
      QuietStoreIsSerial(f, init, s.data);
    }
  }

  ghost predicate AllDecided(txs: Txs) { forall u :: u in txs ==> txs[u].outcome != Undecided }

  lemma NoLogs(f: Body, parts: Parts, txs: Txs, logs: map<nat, Log>)
    requires Logged(f, parts, txs, logs) && AllDecided(txs)
    ensures logs == map[]
  {
    hide EffectOk;
    assert forall u :: u !in logs;
  }
}
