/** Whole runs of the protocol: nothing is served, posted, sent home or released twice;
    conflicting actions are served in the order in which their transactions are decided; and
    the store is that of the serial history. */
module ProtocolRuns {
  import opened KeyWrappers
  import opened LockTables
  import opened LockOrder
  import opened Sequences
  import opened Partitions
  import opened Transactions
  import opened SerialData
  import opened Protocol

  // What a run does to actions and transactions, each step at most one of these
  datatype Milestone =
    | Nothing
    | Enqueued(a: Action)
    | ServedNow(a: Action)
    | PostedNow(a: Action)
    | Decided(u: nat)
    | SentBack(a: Action)
    | Freed(a: Action)

  ghost function EventOf(s: Sys, step: Step): Milestone
    requires Guard(s, step)
  {
    match step
    case Send(u) => Enqueued(s.txs[u].toSend[0])
    case ServeOne(p) => ServedNow(s.parts[p].pc.todo[0])
    case PostAction(p) => PostedNow(s.parts[p].pc.a)
    case Terminal(u, _, _, _) => Decided(u)
    case SendHome(u) => SentBack(s.txs[u].toNotify[0])
    case DrainOne(p) => Freed(s.parts[p].committed[0])
    case _ => Nothing
  }

  // A milestone that lies behind
  predicate Passed(m: Milestone, pl: Place) {
    match m
    case Enqueued(_) => true
    case ServedNow(_) => pl !in {InInput, Waiting, Ready}
    case PostedNow(_) => pl in {Done, InCommitted, Released}
    case SentBack(_) => pl in {InCommitted, Released}
    case Freed(_) => pl == Released
    case _ => false
  }

  ghost predicate ActionReached(parts: Parts, m: Milestone, a: Action) {
    a.part in parts && a in parts[a.part].place && Passed(m, parts[a.part].place[a])
  }

  ghost predicate Reached(s: Sys, m: Milestone) {
    match m
    case Nothing => false
    case Decided(u) => u in s.txs && s.txs[u].outcome != Undecided
    case Enqueued(a) => ActionReached(s.parts, m, a)
    case ServedNow(a) => ActionReached(s.parts, m, a)
    case PostedNow(a) => ActionReached(s.parts, m, a)
    case SentBack(a) => ActionReached(s.parts, m, a)
    case Freed(a) => ActionReached(s.parts, m, a)
  }

  // ---------------------------------------------------------------------------
  // Where a step takes an action
  // ---------------------------------------------------------------------------

  // The places before and after, if there are such
  ghost predicate Goes(parts: Parts, parts': Parts, a: Action, from: Place, to: Place) {
    && a.part in parts && a.part in parts'
    && At(parts[a.part].place, a, from)
    && parts' == parts[a.part := parts'[a.part]]
    && parts'[a.part].place == parts[a.part].place[a := to]
  }

  lemma GoesPasses(parts: Parts, parts': Parts, a: Action, from: Place, to: Place, m: Milestone, b: Action)
    requires Goes(parts, parts', a, from, to)
    ensures ActionReached(parts', m, b) <==> if b == a then Passed(m, to) else ActionReached(parts, m, b)
    ensures ActionReached(parts, m, a) <==> Passed(m, from)
  {
  }

  ghost predicate Here(part: Part, p: nat, a: Action, pl: Place) { At(part.place, a, pl) && a.part == p }

  // Where the actions in the hands of the worker are
  ghost predicate WorkerPlaced(part: Part, p: nat) {
    && (part.input != [] ==> Here(part, p, part.input[0], InInput))
    && (part.committed != [] ==> Here(part, p, part.committed[0], InCommitted))
    && (part.pc.Serve? && part.pc.todo != [] ==> Here(part, p, part.pc.todo[0], Ready))
    && (part.pc.Exec? ==> Here(part, p, part.pc.a, Executing))
    && (part.pc.Post? ==> Here(part, p, part.pc.a, Posting))
  }

  lemma WorkerAt(f: Body, init: Store, s: Sys, p: nat)
    requires SysInv(f, init, s) && p in s.parts
    ensures WorkerPlaced(s.parts[p], p)
  {
    hide PartInv, TxInv, DataInv, Logged, PlaceOk;
    WorkerPlaces(s.parts[p]);
    forall a | a in s.parts[p].place ensures a.part == p {
      PlacedHere(s.parts, s.txs, p, a);
    }
  }

  lemma PlacedHere(parts: Parts, txs: Txs, p: nat, a: Action)
    requires Linked(parts, txs) && p in parts && a in parts[p].place
    ensures a.part == p
  {
    assert PlaceOk(txs, p, parts[p].place, a);
  }

  lemma WorkerPlaces(p: Part)
    requires PartInv(p)
    ensures p.input != [] ==> At(p.place, p.input[0], InInput)
    ensures p.committed != [] ==> At(p.place, p.committed[0], InCommitted)
    ensures p.pc.Serve? && p.pc.todo != [] ==> At(p.place, p.pc.todo[0], Ready)
    ensures p.pc.Exec? ==> At(p.place, p.pc.a, Executing)
    ensures p.pc.Post? ==> At(p.place, p.pc.a, Posting)
  {
    hide Separate, LockSide, OrderSide;
    assert p.input != [] ==> p.input[0] in p.input;
    assert p.committed != [] ==> p.committed[0] in p.committed;
    assert p.pc.Serve? && p.pc.todo != [] ==> p.pc.todo[0] in Todo(p.pc);
    assert p.pc.Exec? ==> p.pc.a in InExec(p.pc);
    assert p.pc.Post? ==> p.pc.a in InPost(p.pc);
  }

  // The action that a step moves on, and where to
  ghost predicate StepGoes(parts: Parts, parts': Parts, m: Milestone, step: Step) {
    match step
    case Take(p) => exists a, pl :: pl in {Ready, Waiting} && Goes(parts, parts', a, InInput, pl)
    case ServeOne(_) =>
      m.ServedNow? && (Goes(parts, parts', m.a, Ready, Executing) || Goes(parts, parts', m.a, Ready, Posting))
    case RunBody(_, _, _) => exists a :: Goes(parts, parts', a, Executing, Posting)
    case PostAction(_) => m.PostedNow? && Goes(parts, parts', m.a, Posting, Done)
    case SendHome(_) => m.SentBack? && Goes(parts, parts', m.a, Done, InCommitted)
    case _ => true
  }

  lemma TakeGoes(parts: Parts, p: nat)
    requires p in parts && WorkerPlaced(parts[p], p) && parts[p].input != []
    ensures StepGoes(parts, parts[p := TakeInput(parts[p])], Nothing, Take(p))
  {
    hide AcquireAll, RequestsOf;
    var a, part' := parts[p].input[0], TakeInput(parts[p]);
    assert Goes(parts, parts[p := part'], a, InInput, part'.place[a]);
  }

  lemma WorkerGoes(parts: Parts, p: nat, part': Part, a: Action, from: Place, to: Place)
    requires p in parts && Here(parts[p], p, a, from) && part'.place == parts[p].place[a := to]
    ensures Goes(parts, parts[p := part'], a, from, to)
  {
  }

  lemma StepMoves(f: Body, init: Store, s: Sys, step: Step)
    requires SysInv(f, init, s) && Enabled(s, step)
    ensures StepGoes(s.parts, Apply(f, s, step).parts, EventOf(s, step), step)
  {
    hide SysInv, PartInv, CanDrain, WfActions, Goes, Here, TakeInput, TerminalData, ExecData;
    match step
    case Take(p) =>
      WorkerAt(f, init, s, p);
      TakeGoes(s.parts, p);
    case ServeOne(p) =>
      WorkerAt(f, init, s, p);
      var a := s.parts[p].pc.todo[0];
      var part' := ServeNext(s.parts[p], s.txs[a.tid].aborted);
      WorkerGoes(s.parts, p, part', a, Ready, if s.txs[a.tid].aborted then Posting else Executing);
    case RunBody(p, _, err) =>
      WorkerAt(f, init, s, p);
      WorkerGoes(s.parts, p, EndExec(s.parts[p], err), s.parts[p].pc.a, Executing, Posting);
    case PostAction(p) =>
      WorkerAt(f, init, s, p);
      WorkerGoes(s.parts, p, AfterPost(s.parts[p]), s.parts[p].pc.a, Posting, Done);
    case SendHome(u) =>
      HomeIsDone(f, init, s, u);
      HomeGoes(s.parts, s.txs[u].toNotify[0]);
    case _ =>
  }

  lemma HomeGoes(parts: Parts, a: Action)
    requires HomeWaits(parts, a)
    ensures Goes(parts, parts[a.part := EnqueueCommit(parts[a.part], a)], a, Done, InCommitted)
  {
  }

  ghost predicate HomeWaits(parts: Parts, a: Action) { a.part in parts && At(parts[a.part].place, a, Done) }

  lemma HomeIsDone(f: Body, init: Store, s: Sys, u: nat)
    requires SysInv(f, init, s) && u in s.txs && s.txs[u].toNotify != []
    ensures HomeWaits(s.parts, s.txs[u].toNotify[0])
  {
    hide PartInv, TxInv, DataInv, Logged, StageOf;
    var a := s.txs[u].toNotify[0];
    HomeHead(u, s.txs[u]);
    assert SentOk(s.parts, s.txs[u], a);
    assert PlaceOk(s.txs, a.part, s.parts[a.part].place, a);
  }

  // ---------------------------------------------------------------------------
  // Milestones are passed once
  // ---------------------------------------------------------------------------

  // The milestone is passed by this step exactly when the step is that milestone
  ghost predicate PassedBy(parts: Parts, parts': Parts, e: Milestone, m: Milestone, b: Action) {
    && (ActionReached(parts', m, b) <==> ActionReached(parts, m, b) || e == m)
    && (e == m ==> !ActionReached(parts, m, b))
  }

  // The action of a milestone of an action
  ghost predicate IsOf(m: Milestone, b: Action) {
    m in {Enqueued(b), ServedNow(b), PostedNow(b), SentBack(b), Freed(b)}
  }

  lemma SendPasses(parts: Parts, a: Action, m: Milestone, b: Action)
    requires a.part in parts && a !in parts[a.part].place && IsOf(m, b)
    ensures PassedBy(parts, parts[a.part := Enqueue(parts[a.part], a)], Enqueued(a), m, b)
  {
  }

  lemma DrainPasses(parts: Parts, p: nat, part': Part, ready: seq<Action>, m: Milestone, b: Action)
    requires p in parts && parts[p].committed != [] && IsOf(m, b)
    requires Here(parts[p], p, parts[p].committed[0], InCommitted)
    requires part'.place == DrainPlaces(parts[p].place, parts[p].committed[0], ready)
    requires forall c :: c in ready ==> At(parts[p].place, c, Waiting)
    ensures PassedBy(parts, parts[p := part'], Freed(parts[p].committed[0]), m, b)
  {
  }

  lemma StillPasses(parts: Parts, parts': Parts, m: Milestone, b: Action)
    requires parts'.Keys == parts.Keys && IsOf(m, b)
    requires forall p :: p in parts ==> parts'[p].place == parts[p].place
    ensures PassedBy(parts, parts', Nothing, m, b)
  {
  }

  lemma GoingPasses(parts: Parts, parts': Parts, e: Milestone, step: Step, m: Milestone, b: Action)
    requires StepGoes(parts, parts', e, step) && IsOf(m, b)
    requires step.Take? || step.ServeOne? || step.RunBody? || step.PostAction? || step.SendHome?
    requires step.Take? || step.RunBody? ==> e == Nothing
    ensures PassedBy(parts, parts', e, m, b)
  {
    hide Goes;
    match step
    case Take(p) =>
      var a, pl :| pl in {Ready, Waiting} && Goes(parts, parts', a, InInput, pl);
      GoesPasses(parts, parts', a, InInput, pl, m, b);
    case ServeOne(_) =>
      if Goes(parts, parts', e.a, Ready, Executing) {
        GoesPasses(parts, parts', e.a, Ready, Executing, m, b);
      } else {
        GoesPasses(parts, parts', e.a, Ready, Posting, m, b);
      }
    case RunBody(_, _, _) =>
      var a :| Goes(parts, parts', a, Executing, Posting);
      GoesPasses(parts, parts', a, Executing, Posting, m, b);
    case PostAction(_) => GoesPasses(parts, parts', e.a, Posting, Done, m, b);
    case SendHome(_) => GoesPasses(parts, parts', e.a, Done, InCommitted, m, b);
  }

  lemma SendStepPasses(f: Body, init: Store, s: Sys, u: nat, m: Milestone, b: Action)
    requires SysInv(f, init, s) && Enabled(s, Send(u)) && IsOf(m, b)
    ensures PassedBy(s.parts, Apply(f, s, Send(u)).parts, Enqueued(s.txs[u].toSend[0]), m, b)
  {
    hide PartInv, TxInv, DataInv, Logged, Linked, PassedBy, StageOf;
    var a := s.txs[u].toSend[0];
    SentOneInv(u, s.txs[u]);
    TxOwns(u, s.txs[u], a);
    PlacedIsSent(s.parts, s.txs, a);
    SendPasses(s.parts, a, m, b);
  }

  lemma DrainStepPasses(f: Body, init: Store, s: Sys, p: nat, m: Milestone, b: Action)
    requires SysInv(f, init, s) && Enabled(s, DrainOne(p)) && IsOf(m, b)
    ensures PassedBy(s.parts, Apply(f, s, DrainOne(p)).parts, Freed(s.parts[p].committed[0]), m, b)
  {
    WorkerAt(f, init, s, p);
    hide PartInv, TxInv, DataInv, Logged, Linked, PassedBy, CanDrain, Drain, Here, DrainPlaces;
    DrainKeeps(s.parts[p]);
    DrainPasses(s.parts, p, Drain(s.parts[p]), Drain(s.parts[p]).pc.todo, m, b);
  }

  lemma ActionStep(f: Body, init: Store, s: Sys, step: Step, m: Milestone, b: Action)
    requires SysInv(f, init, s) && Enabled(s, step) && IsOf(m, b)
    ensures PassedBy(s.parts, Apply(f, s, step).parts, EventOf(s, step), m, b)
  {
    hide SysInv, PassedBy, IsOf, StepGoes, CanDrain, WfActions, Drain, TakeInput, Enqueue, EnqueueCommit,
        TerminalData, ExecData;
    if step.Send? {
      SendStepPasses(f, init, s, step.u, m, b);
    } else if step.DrainOne? {
      DrainStepPasses(f, init, s, step.p, m, b);
    } else if step.Take? || step.ServeOne? || step.RunBody? || step.PostAction? || step.SendHome? {
      StepMoves(f, init, s, step);
      GoingPasses(s.parts, Apply(f, s, step).parts, EventOf(s, step), step, m, b);
    } else {
      QuietStep(f, s, step, m, b);
    }
  }

  lemma QuietStep(f: Body, s: Sys, step: Step, m: Milestone, b: Action)
    requires Enabled(s, step) && IsOf(m, b)
    requires !step.Send? && !step.DrainOne? && !step.Take? && !step.ServeOne?
    requires !step.RunBody? && !step.PostAction? && !step.SendHome?
    ensures PassedBy(s.parts, Apply(f, s, step).parts, EventOf(s, step), m, b)
  {
    hide PassedBy, IsOf, WfActions, TerminalData;
    assert step.Terminal? ==> EventOf(s, step) != m by { DecidedIsNot(m, b, EventOf(s, step)); }
    if step.Terminal? {
      OtherPasses(s.parts, EventOf(s, step), m, b);
    } else {
      StillPasses(s.parts, Apply(f, s, step).parts, m, b);
    }
  }

  lemma DecidedIsNot(m: Milestone, b: Action, e: Milestone)
    requires IsOf(m, b)
    ensures e.Decided? ==> e != m
  {
  }

  lemma OtherPasses(parts: Parts, e: Milestone, m: Milestone, b: Action)
    requires e != m
    ensures PassedBy(parts, parts, e, m, b)
  {
  }

  // A transaction is decided by its terminal rendezvous point, and by nothing else
  lemma DecidedStep(f: Body, init: Store, s: Sys, step: Step, u: nat)
    requires SysInv(f, init, s) && Enabled(s, step)
    ensures Reached(Apply(f, s, step), Decided(u)) <==> Reached(s, Decided(u)) || EventOf(s, step) == Decided(u)
    ensures EventOf(s, step) == Decided(u) ==> !Reached(s, Decided(u))
  {
    hide SysInv, TxInv, WfActions, CanDrain, Drain, TakeInput, TerminalData, ExecData, Enqueue, EnqueueCommit,
        BeginData;
    if step.Midway? || step.Terminal? { RunningUndecided(f, init, s, step.u); }
  }

  lemma RunningUndecided(f: Body, init: Store, s: Sys, u: nat)
    requires SysInv(f, init, s) && u in s.txs && s.txs[u].mode == Running
    ensures s.txs[u].outcome == Undecided
  {
    hide TxInv, PartInv, DataInv, Logged, Linked;
    MidwayUndecided(u, s.txs[u]);
  }

  /** Every step passes at most one milestone, and none a second time. */
  lemma StepPasses(f: Body, init: Store, s: Sys, step: Step, m: Milestone)
    requires SysInv(f, init, s) && Enabled(s, step)
    ensures m != Nothing ==> (Reached(Apply(f, s, step), m) <==> Reached(s, m) || EventOf(s, step) == m)
    ensures m != Nothing && EventOf(s, step) == m ==> !Reached(s, m)
  {
    hide SysInv, Enabled, Apply, EventOf, ActionReached;
    match m
    case Nothing =>
    case Decided(u) => DecidedStep(f, init, s, step, u);
    case Enqueued(b) => ActionStep(f, init, s, step, m, b);
    case ServedNow(b) => ActionStep(f, init, s, step, m, b);
    case PostedNow(b) => ActionStep(f, init, s, step, m, b);
    case SentBack(b) => ActionStep(f, init, s, step, m, b);
    case Freed(b) => ActionStep(f, init, s, step, m, b);
  }

  // ---------------------------------------------------------------------------
  // Runs
  // ---------------------------------------------------------------------------

  // One step of the code; were an assert to fail, anything could follow
  ghost predicate Next(f: Body, s: Sys, step: Step, s': Sys) {
    Guard(s, step) && (Asserts(s, step) ==> s' == Apply(f, s, step))
  }

  ghost predicate IsRun(f: Body, init: Store, partitions: set<nat>, states: seq<Sys>, steps: seq<Step>) {
    && |states| == |steps| + 1 && states[0] == Init(partitions, init)
    && forall i :: 0 <= i < |steps| ==> Next(f, states[i], steps[i], states[i + 1])
  }

  /** No assert fails in any run, and every state of a run satisfies the invariant. */
  lemma {:induction false} RunIsSafe(f: Body, init: Store, partitions: set<nat>, states: seq<Sys>,
      steps: seq<Step>, n: nat)
    requires IsRun(f, init, partitions, states, steps) && n < |states|
    ensures SysInv(f, init, states[n])
    ensures n < |steps| ==> Enabled(states[n], steps[n]) && states[n + 1] == Apply(f, states[n], steps[n])
  {
    hide SysInv, Guard, Asserts, Apply;
    if n == 0 {
      InitInv(f, partitions, init);
    } else {
      RunIsSafe(f, init, partitions, states, steps, n - 1);
      StepKeeps(f, init, states[n - 1], steps[n - 1]);
    }
    if n < |steps| {
      assert Next(f, states[n], steps[n], states[n + 1]);
      StepKeeps(f, init, states[n], steps[n]);
    }
  }

  ghost function EventAt(f: Body, init: Store, partitions: set<nat>, states: seq<Sys>, steps: seq<Step>,
      i: nat): Milestone
    requires IsRun(f, init, partitions, states, steps) && i < |steps|
  {
    assert Next(f, states[i], steps[i], states[i + 1]);
    EventOf(states[i], steps[i])
  }

  // How often a milestone is passed in the first n steps
  ghost function Times(f: Body, init: Store, partitions: set<nat>, states: seq<Sys>, steps: seq<Step>, n: nat,
      m: Milestone): nat
    requires IsRun(f, init, partitions, states, steps) && n <= |steps|
  {
    if n == 0 then 0
    else
      Times(f, init, partitions, states, steps, n - 1, m)
      + if EventAt(f, init, partitions, states, steps, n - 1) == m then 1 else 0
  }

  lemma NothingAtFirst(partitions: set<nat>, init: Store, m: Milestone)
    ensures !Reached(Init(partitions, init), m)
  {
  }

  /** Exactly once: in every run an action is enqueued, served, posted, sent back and released
      at most once each, a transaction is decided at most once, and the current state tells
      which of these have happened. */
  lemma {:induction false} ExactlyOnce(
      f: Body, init: Store, partitions: set<nat>, states: seq<Sys>, steps: seq<Step>, n: nat, m: Milestone)
    requires IsRun(f, init, partitions, states, steps) && n <= |steps| && m != Nothing
    ensures Times(f, init, partitions, states, steps, n, m) == if Reached(states[n], m) then 1 else 0
  {
    hide SysInv, Enabled, Apply, Reached, EventOf, Next;
    if n == 0 {
      NothingAtFirst(partitions, init, m);
    } else {
      ExactlyOnce(f, init, partitions, states, steps, n - 1, m);
      RunIsSafe(f, init, partitions, states, steps, n - 1);
      StepPasses(f, init, states[n - 1], steps[n - 1], m);
    }
  }

  // What has been reached was passed at some step, and stays reached
  lemma {:induction false} WhenPassed(
      f: Body, init: Store, partitions: set<nat>, states: seq<Sys>, steps: seq<Step>, n: nat, m: Milestone)
        returns (i: nat)
    requires IsRun(f, init, partitions, states, steps) && n <= |steps| && Reached(states[n], m)
    ensures i < n && EventAt(f, init, partitions, states, steps, i) == m
  {
    hide SysInv, Enabled, Apply, EventOf, Next, ActionReached;
    if n == 0 {
      NothingAtFirst(partitions, init, m);
      assert false;
    } else {
      RunIsSafe(f, init, partitions, states, steps, n - 1);
      StepPasses(f, init, states[n - 1], steps[n - 1], m);
      if EventAt(f, init, partitions, states, steps, n - 1) == m {
        i := n - 1;
      } else {
        i := WhenPassed(f, init, partitions, states, steps, n - 1, m);
      }
    }
  }

  lemma {:induction false} StaysReached(
      f: Body, init: Store, partitions: set<nat>, states: seq<Sys>, steps: seq<Step>, i: nat, n: nat, m: Milestone)
    requires IsRun(f, init, partitions, states, steps) && i < n <= |steps|
    requires EventAt(f, init, partitions, states, steps, i) == m != Nothing
    ensures Reached(states[n], m) && !Reached(states[i], m)
  {
    hide SysInv, Enabled, Apply, Reached, EventOf, Next;
    RunIsSafe(f, init, partitions, states, steps, i);
    StepPasses(f, init, states[i], steps[i], m);
    if i + 1 < n {
      StaysReached(f, init, partitions, states, steps, i, n - 1, m);
      RunIsSafe(f, init, partitions, states, steps, n - 1);
      StepPasses(f, init, states[n - 1], steps[n - 1], m);
    }
  }

  // ---------------------------------------------------------------------------
  // The life of an action, and conflicts
  // ---------------------------------------------------------------------------

  /** An action is served only while its transaction is undecided; it is sent back only after
      the decision; and it is released only after it was sent back. */
  lemma LifeOrder(f: Body, init: Store, s: Sys, a: Action)
    requires SysInv(f, init, s)
    ensures Reached(s, SentBack(a)) ==> Reached(s, Decided(a.tid))
    ensures Reached(s, Enqueued(a)) && !Reached(s, PostedNow(a)) ==> !Reached(s, Decided(a.tid))
    ensures Reached(s, Freed(a)) ==> Reached(s, SentBack(a))
    ensures Reached(s, SentBack(a)) ==> Reached(s, PostedNow(a))
    ensures Reached(s, PostedNow(a)) ==> Reached(s, ServedNow(a))
  {
    hide PartInv, TxInv, DataInv, Logged, SentOk;
    if a.part in s.parts && a in s.parts[a.part].place {
      assert PlaceOk(s.txs, a.part, s.parts[a.part].place, a);
      StageOutcome(a.tid, s.txs[a.tid], a);
    }
  }

  lemma StageOutcome(u: nat, t: Tx, a: Action)
    requires TxInv(u, t)
    ensures StageOf(t, a) == Notified ==> t.outcome != Undecided
    ensures StageOf(t, a) == Pending ==> t.outcome == Undecided
  {
    if StageOf(t, a) == Pending { PostOneInv(u, t, a); }
  }

  /** Conflicting actions never overlap: an action that is about to be served finds every
      conflicting action of its partition either not served yet, or released. */
  lemma ServedFindsReleased(f: Body, init: Store, s: Sys, p: nat, a: Action, k: Key)
    requires SysInv(f, init, s) && Enabled(s, ServeOne(p))
    requires var b := s.parts[p].pc.todo[0]; a != b && a.part == b.part && Conflict(a, b, k)
    ensures Reached(s, ServedNow(a)) ==> Reached(s, Freed(a))
  {
    hide PartInv, TxInv, DataInv, Logged, Linked;
    WorkerAt(f, init, s, p);
    if Reached(s, ServedNow(a)) && !Reached(s, Freed(a)) {
      ServedNeverConflict(s.parts[p], a, s.parts[p].pc.todo[0], k);
      assert false;
    }
  }

  /** Commit order is conflict order, over every run: if two conflicting actions are served,
      the second one is served only after the transaction of the first has been committed or
      aborted by its terminal rendezvous point, and the first has been released. */
  lemma ConflictsAreSerial(
      f: Body, init: Store, partitions: set<nat>, states: seq<Sys>, steps: seq<Step>,
      i: nat, j: nat, a: Action, b: Action, k: Key) returns (d: nat, r: nat)
    requires IsRun(f, init, partitions, states, steps) && i < j < |steps|
    requires EventAt(f, init, partitions, states, steps, i) == ServedNow(a)
    requires EventAt(f, init, partitions, states, steps, j) == ServedNow(b)
    requires a != b && a.part == b.part && Conflict(a, b, k)
    ensures i < d < r < j
    ensures EventAt(f, init, partitions, states, steps, d) == Decided(a.tid)
    ensures EventAt(f, init, partitions, states, steps, r) == Freed(a)
  {
    hide SysInv, Enabled, Apply, Next, ActionReached, Conflict, Reached;
    StaysReached(f, init, partitions, states, steps, i, j, ServedNow(a));
    RunIsSafe(f, init, partitions, states, steps, j);
    ServedFindsReleased(f, init, states[j], steps[j].p, a, k);
    r := WhenPassed(f, init, partitions, states, steps, j, Freed(a));
    ReleasedIsDecided(f, init, partitions, states, steps, r, a);
    d := WhenPassed(f, init, partitions, states, steps, r, Decided(a.tid));
    ServedIsUndecided(f, init, partitions, states, steps, i, a);
    if d < i {
      StaysReached(f, init, partitions, states, steps, d, i, Decided(a.tid));
      assert false;
    }
  }

  lemma ReleasedIsDecided(
      f: Body, init: Store, partitions: set<nat>, states: seq<Sys>, steps: seq<Step>, r: nat, a: Action)
    requires IsRun(f, init, partitions, states, steps) && r < |steps|
    requires EventAt(f, init, partitions, states, steps, r) == Freed(a)
    ensures Reached(states[r], Decided(a.tid))
  {
    hide SysInv, Enabled, Apply, Next, ActionReached, Reached;
    RunIsSafe(f, init, partitions, states, steps, r);
    RunIsSafe(f, init, partitions, states, steps, r + 1);
    StepPasses(f, init, states[r], steps[r], Freed(a));
    StepPasses(f, init, states[r], steps[r], SentBack(a));
    LifeOrder(f, init, states[r + 1], a);
    LifeOrder(f, init, states[r], a);
  }

  lemma ServedIsUndecided(
      f: Body, init: Store, partitions: set<nat>, states: seq<Sys>, steps: seq<Step>, i: nat, a: Action)
    requires IsRun(f, init, partitions, states, steps) && i < |steps|
    requires EventAt(f, init, partitions, states, steps, i) == ServedNow(a)
    ensures !Reached(states[i], Decided(a.tid))
  {
    hide SysInv, Apply, Next;
    RunIsSafe(f, init, partitions, states, steps, i);
    WorkerAt(f, init, states[i], steps[i].p);
    LifeOrder(f, init, states[i], a);
  }

  // ---------------------------------------------------------------------------
  // Aborting
  // ---------------------------------------------------------------------------

  // Some action of the transaction failed and asked for the abort
  ghost predicate AsksAbort(s: Sys, step: Step, u: nat)
    requires Guard(s, step)
  {
    step.MarkAbort? && s.parts[step.p].pc.a.tid == u
  }

  ghost predicate IsAborted(s: Sys, u: nat) { u in s.txs && s.txs[u].aborted }

  lemma AbortStep(f: Body, init: Store, s: Sys, step: Step, u: nat)
    requires SysInv(f, init, s) && Enabled(s, step)
    ensures IsAborted(Apply(f, s, step), u) <==> IsAborted(s, u) || AsksAbort(s, step, u)
  {
    hide SysInv, TxInv, WfActions, CanDrain, Drain, TakeInput, TerminalData, ExecData, Enqueue, EnqueueCommit,
        BeginData;
  }

  /** A transaction is told to abort exactly when one of its actions failed and asked for it
      before it posted; whatever the later rendezvous points are, the decision is handed on to
      the terminal one. */
  lemma {:induction false} AbortedIffAsked(
      f: Body, init: Store, partitions: set<nat>, states: seq<Sys>, steps: seq<Step>, n: nat, u: nat)
    requires IsRun(f, init, partitions, states, steps) && n <= |steps|
    ensures IsAborted(states[n], u) <==>
              exists i :: 0 <= i < n && Next(f, states[i], steps[i], states[i + 1]) && AsksAbort(states[i], steps[i], u)
  {
    hide SysInv, Enabled, Apply, AsksAbort, Guard, Asserts;
    if n > 0 {
      AbortedIffAsked(f, init, partitions, states, steps, n - 1, u);
      RunIsSafe(f, init, partitions, states, steps, n - 1);
      AbortStep(f, init, states[n - 1], steps[n - 1], u);
      assert Next(f, states[n - 1], steps[n - 1], states[n]);
    }
  }

  /** What the terminal rendezvous point decides, and who goes on with it: a lazy commit waits
      at the flusher for its own LSN and has nothing to notify yet; every other decision starts
      the notification of all its actions at once. */
  lemma TerminalDecides(
      f: Body, init: Store, partitions: set<nat>, states: seq<Sys>, steps: seq<Step>, n: nat)
    requires IsRun(f, init, partitions, states, steps) && n < |steps| && steps[n].Terminal?
    ensures var u := steps[n].u;
            && u in states[n + 1].txs
            && (states[n + 1].txs[u].outcome == Aborted <==> IsAborted(states[n], u) || !steps[n].commitOk)
            && (states[n + 1].txs[u].outcome == Committed <==> !IsAborted(states[n], u) && steps[n].commitOk)
            && (states[n + 1].txs[u].mode == Flushing(steps[n].lsn) <==>
                  steps[n].lazy && steps[n].commitOk && !IsAborted(states[n], u))
            && (states[n + 1].txs[u].mode == Notifying <==>
                  !steps[n].lazy || !steps[n].commitOk || IsAborted(states[n], u))
            && states[n + 1].txs[u].actions == states[n].txs[u].actions
            && states[n + 1].txs[u].toNotify ==
                 (if states[n + 1].txs[u].mode == Notifying then states[n].txs[u].actions else [])
            && (forall a :: a in states[n].txs[u].actions ==>
                  Reached(states[n], PostedNow(a)) && !Reached(states[n], SentBack(a)))
  {
    hide SysInv, PartInv;
    RunIsSafe(f, init, partitions, states, steps, n);
    hide Apply;
    TerminalFindsPosted(f, init, states[n], steps[n].u);
    RunningNotifiesNobody(f, init, states[n], steps[n].u);
    TerminalOutcome(f, states[n], steps[n]);
  }

  lemma RunningNotifiesNobody(f: Body, init: Store, s: Sys, u: nat)
    requires SysInv(f, init, s) && u in s.txs && s.txs[u].mode == Running
    ensures s.txs[u].toNotify == []
  {
    hide PartInv, DataInv, Linked, Logged;
  }

  lemma TerminalOutcome(f: Body, s: Sys, step: Step)
    requires Enabled(s, step) && step.Terminal?
    ensures Apply(f, s, step).txs == s.txs[step.u := RunTerminal(s.txs[step.u], step.commitOk, step.lazy, step.lsn)]
  {
    hide TerminalData;
  }

  lemma TerminalFindsPosted(f: Body, init: Store, s: Sys, u: nat)
    requires SysInv(f, init, s) && u in s.txs && s.txs[u].mode == Running
    ensures forall a :: a in s.txs[u].actions ==> Reached(s, PostedNow(a)) && !Reached(s, SentBack(a))
  {
    hide PartInv, TxInv, DataInv, Logged;
    IdleHasPosted(u, s.txs[u]);
    forall a | a in s.txs[u].actions ensures Reached(s, PostedNow(a)) && !Reached(s, SentBack(a)) {
      TxOwns(u, s.txs[u], a);
      assert SentOk(s.parts, s.txs[u], a);
      assert PlaceOk(s.txs, a.part, s.parts[a.part].place, a);
    }
  }

  // ---------------------------------------------------------------------------
  // Group commit and deadlock
  // ---------------------------------------------------------------------------

  // A transaction whose log record is not known to be durable sends no action back
  ghost predicate NotBeforeDurable(s: Sys, s': Sys, u: nat) {
    u in s.txs && s.txs[u].mode.Flushing? && u in s'.txs && !s'.txs[u].mode.Flushing? ==> s.txs[u].mode.lsn < s.durable
  }

  ghost predicate HoldsLocks(parts: Parts, a: Action) {
    a.part in parts && OwnsAll(parts[a.part].table, a.keys, a.tid)
  }

  /** A lazily committed transaction leaves the flusher only when its LSN is durable, and
      keeps all its locks until then. */
  lemma LazyWaits(f: Body, init: Store, s: Sys, step: Step, u: nat)
    requires SysInv(f, init, s) && Enabled(s, step) && u in s.txs && s.txs[u].mode.Flushing?
    ensures u in Apply(f, s, step).txs && NotBeforeDurable(s, Apply(f, s, step), u)
    ensures forall a :: a in s.txs[u].actions ==>
              Reached(s, ServedNow(a)) && !Reached(s, SentBack(a)) && HoldsLocks(s.parts, a)
  {
    hide SysInv, PartInv;
    LazyStep(f, init, s, step, u);
    FlushingFindsPosted(f, init, s, u);
  }

  /** Leaving the flusher starts the notification of all its actions. */
  lemma FlushedNotifies(f: Body, init: Store, s: Sys, u: nat)
    requires SysInv(f, init, s) && Enabled(s, Flushed(u))
    ensures u in s.txs && u in Apply(f, s, Flushed(u)).txs
    ensures Apply(f, s, Flushed(u)).txs[u] == s.txs[u].(mode := Notifying, toNotify := s.txs[u].actions)
    ensures s.txs[u].outcome == Committed
  {
    hide PartInv, DataInv, Linked, Logged;
    FlushDoneInv(u, s.txs[u]);
  }

  lemma LazyStep(f: Body, init: Store, s: Sys, step: Step, u: nat)
    requires SysInv(f, init, s) && Enabled(s, step) && u in s.txs && s.txs[u].mode.Flushing?
    ensures u in Apply(f, s, step).txs && NotBeforeDurable(s, Apply(f, s, step), u)
  {
    hide SysInv, TxInv, WfActions, CanDrain, Drain, TakeInput, TerminalData, ExecData, Enqueue, EnqueueCommit,
        BeginData;
    if step.PostAction? { PosterGathers(f, init, s, step.p); }
  }

  lemma PosterGathers(f: Body, init: Store, s: Sys, p: nat)
    requires SysInv(f, init, s) && p in s.parts && s.parts[p].pc.Post? && s.parts[p].pc.a.tid in s.txs
    ensures s.txs[s.parts[p].pc.a.tid].mode == Gathering
  {
    hide PartInv, TxInv, DataInv, Linked, Logged;
    PostsPending(s.parts[p]);
    WorkerHolds(f, init, s, p, s.parts[p].pc.a);
    PostOneInv(s.parts[p].pc.a.tid, s.txs[s.parts[p].pc.a.tid], s.parts[p].pc.a);
  }

  lemma FlushingFindsPosted(f: Body, init: Store, s: Sys, u: nat)
    requires SysInv(f, init, s) && u in s.txs && s.txs[u].mode.Flushing?
    ensures forall a :: a in s.txs[u].actions ==>
              Reached(s, ServedNow(a)) && !Reached(s, SentBack(a)) && HoldsLocks(s.parts, a)
  {
    hide PartInv, TxInv, DataInv, Logged, OwnsAll;
    IdleHasPosted(u, s.txs[u]);
    forall a | a in s.txs[u].actions
      ensures Reached(s, ServedNow(a)) && !Reached(s, SentBack(a)) && HoldsLocks(s.parts, a)
    {
      TxOwns(u, s.txs[u], a);
      assert SentOk(s.parts, s.txs[u], a);
      assert PlaceOk(s.txs, a.part, s.parts[a.part].place, a);
      ServedOwnsAll(s.parts[a.part], a);
    }
  }

  /** No partition is ever deadlocked by its own locks: in every state of every run the oldest
      unreleased action owns all its keys, and whoever waits, waits for an earlier action. */
  lemma NoPartitionDeadlocks(
      f: Body, init: Store, partitions: set<nat>, states: seq<Sys>, steps: seq<Step>, n: nat, p: nat)
    requires IsRun(f, init, partitions, states, steps) && n <= |steps| && p in states[n].parts
    requires states[n].parts[p].order != []
    ensures var part := states[n].parts[p];
            && OwnsAll(part.table, part.order[0].keys, part.order[0].tid)
            && part.order[0] in part.place && Partitions.Served(part.place[part.order[0]])
            && forall j, k :: 0 <= j < |part.order| && Waits(part.table, part.order[j], k) ==>
                 exists i :: 0 <= i < j && Conflict(part.order[i], part.order[j], k)
  {
    hide PartInv, TxsInv, DataInv, Linked, Logged, Next;
    RunIsSafe(f, init, partitions, states, steps, n);
    NoLocalDeadlock(states[n].parts[p]);
  }
}
