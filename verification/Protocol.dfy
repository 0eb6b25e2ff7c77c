/** The whole system: partitions, transactions and data, as one transition system.

    Every step of a worker, of a rendezvous point, of the flusher or of a client is one
    transition; a run is any interleaving of them.  The run of a rendezvous point is a
    sequence of steps of its transaction, which the model does not tie to the worker that
    posted last: this only adds runs. */
module Protocol {
  import opened KeyWrappers
  import opened LockTables
  import opened LockOrder
  import opened Sequences
  import opened Partitions
  import opened Transactions
  import opened SerialData

  type Parts = map<nat, Part>
  type Txs = map<nat, Tx>

  datatype Sys = Sys(parts: Parts, txs: Txs, durable: nat, data: Data)

  datatype Step =
    // a client starts a transaction, or somebody sends one of its new actions out
    | Begin(u: nat, midways: nat, actions: seq<Action>)
    | Send(u: nat)
    // the worker of a partition
    | ToInput(p: nat)
    | PopNothing(p: nat)
    | Take(p: nat)
    | DrainOne(p: nat)
    | ServeEnd(p: nat)
    | ServeOne(p: nat)
    | RunBody(p: nat, partial: map<Key, int>, err: bool)
    | MarkAbort(p: nat)
    | PostAction(p: nat)
    // the rendezvous points of a transaction
    | Midway(u: nat, next: seq<Action>)
    | Terminal(u: nat, commitOk: bool, lazy: bool, lsn: nat)
    // the flusher and the notification loop
    | Harden(lsn: nat)
    | Flushed(u: nat)
    | SendHome(u: nat)

  function Init(partitions: set<nat>, init: Store): Sys {
    Sys(map p | p in partitions :: EmptyPart(), map[], 0, Data(init, map[], map[], []))
  }

  // When the code gets to a step
  ghost predicate Guard(s: Sys, step: Step) {
    match step
    case Begin(u, _, actions) =>
      u !in s.txs && actions != [] && WfActions(u, actions) && SentToParts(s.parts, actions)
    case Send(u) => u in s.txs && s.txs[u].toSend != []
    case ToInput(p) => p in s.parts && s.parts[p].pc == Loop && s.parts[p].committed == []
    case PopNothing(p) => p in s.parts && s.parts[p].pc == Input
    case Take(p) => p in s.parts && s.parts[p].pc == Input && s.parts[p].input != []
    case DrainOne(p) => p in s.parts && s.parts[p].pc == Loop && s.parts[p].committed != []
    case ServeEnd(p) => p in s.parts && s.parts[p].pc == Serve([])
    case ServeOne(p) => p in s.parts && s.parts[p].pc.Serve? && s.parts[p].pc.todo != []
    case RunBody(p, _, _) => p in s.parts && s.parts[p].pc.Exec?
    case MarkAbort(p) => p in s.parts && s.parts[p].pc.Post? && s.parts[p].pc.err
    case PostAction(p) => p in s.parts && s.parts[p].pc.Post? && !s.parts[p].pc.err
    case Midway(u, next) =>
      && u in s.txs && s.txs[u].mode == Running && s.txs[u].midways > 0
      && (!s.txs[u].aborted ==> next != [] && WfActions(u, s.txs[u].actions + next) && SentToParts(s.parts, next))
    case Terminal(u, _, _, _) => u in s.txs && s.txs[u].mode == Running && s.txs[u].midways == 0
    case Harden(lsn) => lsn >= s.durable
    case Flushed(u) => u in s.txs && s.txs[u].mode.Flushing? && s.txs[u].mode.lsn < s.durable
    case SendHome(u) => u in s.txs && s.txs[u].toNotify != []
  }

  ghost predicate SentToParts(parts: Parts, actions: seq<Action>) { forall a :: a in actions ==> a.part in parts }

  // What the code asserts, or takes for granted, when it gets there
  ghost predicate Asserts(s: Sys, step: Step)
    requires Guard(s, step)
  {
    match step
    case Send(u) => s.txs[u].toSend[0].part in s.parts
    case DrainOne(p) => CanDrain(s.parts[p])
    case ServeOne(p) =>
      var a := s.parts[p].pc.todo[0];
      a.tid in s.txs && a in s.parts[p].needed && s.parts[p].needed[a] == 0
    case RunBody(p, _, _) =>
      var u := s.parts[p].pc.a.tid;
      u in s.txs && u in s.data.logs && u in s.data.undo
    case MarkAbort(p) => s.parts[p].pc.a.tid in s.txs
    case PostAction(p) => s.parts[p].pc.a.tid in s.txs && s.txs[s.parts[p].pc.a.tid].count > 0
    case Terminal(u, _, _, _) => u in s.data.logs && u in s.data.undo
    case SendHome(u) => s.txs[u].toNotify[0].part in s.parts
    case _ => true
  }

  ghost predicate Enabled(s: Sys, step: Step) { Guard(s, step) && Asserts(s, step) }

  function SetPart(s: Sys, p: nat, q: Part): Sys { s.(parts := s.parts[p := q]) }

  function SetTx(s: Sys, u: nat, t: Tx): Sys { s.(txs := s.txs[u := t]) }

  // What the body of an action sees and writes.  It is rolled back later if it fails, or
  // gives up because the transaction has been aborted meanwhile: then it writes anything.
  function BodyEffect(f: Body, s: Sys, a: Action, partial: map<Key, int>, err: bool): Effect
    requires a.tid in s.txs
  {
    var view := View(s.data.store, a);
    var ok := !err && !s.txs[a.tid].aborted;
    Effect(a, view, Confine(a, if ok then f(a, view) else partial), ok)
  }

  function TerminalData(s: Sys, u: nat, commitOk: bool): Data
    requires u in s.txs && u in s.data.logs && u in s.data.undo
  {
    if s.txs[u].aborted || !commitOk then AbortData(s.data, u) else CommitData(s.data, u)
  }

  ghost function Apply(f: Body, s: Sys, step: Step): Sys
    requires Enabled(s, step)
  {
    match step
    case Begin(u, midways, actions) => SetTx(s, u, NewTx(midways, actions)).(data := BeginData(s.data, u))
    case Send(u) =>
      var a := s.txs[u].toSend[0];
      SetPart(SetTx(s, u, SentOne(s.txs[u])), a.part, Enqueue(s.parts[a.part], a))
    case ToInput(p) => SetPart(s, p, NoCommit(s.parts[p]))
    case PopNothing(p) => SetPart(s, p, EmptyPop(s.parts[p]))
    case Take(p) => SetPart(s, p, TakeInput(s.parts[p]))
    case DrainOne(p) => SetPart(s, p, Drain(s.parts[p]))
    case ServeEnd(p) => SetPart(s, p, ServeNone(s.parts[p]))
    case ServeOne(p) => SetPart(s, p, ServeNext(s.parts[p], s.txs[s.parts[p].pc.todo[0].tid].aborted))
    case RunBody(p, partial, err) =>
      var a := s.parts[p].pc.a;
      SetPart(s, p, EndExec(s.parts[p], err)).(data := ExecData(s.data, a.tid, BodyEffect(f, s, a, partial, err)))
    case MarkAbort(p) =>
      var u := s.parts[p].pc.a.tid;
      SetPart(SetTx(s, u, SetAbort(s.txs[u])), p, AbortSet(s.parts[p]))
    case PostAction(p) =>
      var a := s.parts[p].pc.a;
      SetPart(SetTx(s, a.tid, PostOne(s.txs[a.tid], a)), p, AfterPost(s.parts[p]))
    case Midway(u, next) => SetTx(s, u, RunMidway(s.txs[u], next))
    case Terminal(u, commitOk, lazy, lsn) =>
      SetTx(s, u, RunTerminal(s.txs[u], commitOk, lazy, lsn)).(data := TerminalData(s, u, commitOk))
    case Harden(lsn) => s.(durable := lsn)
    case Flushed(u) => SetTx(s, u, FlushDone(s.txs[u]))
    case SendHome(u) =>
      var a := s.txs[u].toNotify[0];
      SetPart(SetTx(s, u, NotifyOne(s.txs[u])), a.part, EnqueueCommit(s.parts[a.part], a))
  }

  // ---------------------------------------------------------------------------
  // The invariant
  // ---------------------------------------------------------------------------

  // How far an action has got, as its partition knows it
  function PlaceStage(pl: Place): Stage {
    match pl
    case Done => Posted
    case InCommitted => Notified
    case Released => Notified
    case _ => Pending
  }

  ghost predicate PlaceOk(txs: Txs, p: nat, place: Places, a: Action)
    requires a in place
  {
    && a.part == p && a.tid in txs && a in txs[a.tid].actions
    && StageOf(txs[a.tid], a) == PlaceStage(place[a])
  }

  ghost predicate SentOk(parts: Parts, t: Tx, a: Action) {
    a.part in parts && (StageOf(t, a) != Unsent ==> a in parts[a.part].place)
  }

  // Partitions and transactions agree on how far each action has got
  ghost predicate Linked(parts: Parts, txs: Txs) {
    && (forall p, a :: p in parts && a in parts[p].place ==> PlaceOk(txs, p, parts[p].place, a))
    && (forall u, a :: u in txs && a in txs[u].actions ==> SentOk(parts, txs[u], a))
  }

  // The action of an effect has been served, and its locks are held
  ghost predicate Holds(parts: Parts, u: nat, e: Effect) {
    && e.a.tid == u && Confined(e) && e.a.part in parts
    && e.a in parts[e.a.part].place && parts[e.a.part].place[e.a] in {Posting, Done}
  }

  ghost predicate EffectOk(f: Body, parts: Parts, t: Tx, u: nat, e: Effect) {
    && Holds(parts, u, e) && (e.ok ==> Ran(f, e))
    && (e.ok || t.aborted || (parts[e.a.part].pc.Post? && parts[e.a.part].pc.a == e.a && parts[e.a.part].pc.err))
  }

  // The undecided transactions have logs, of effects whose locks are still held
  ghost predicate Logged(f: Body, parts: Parts, txs: Txs, logs: map<nat, Log>) {
    && (forall u :: u in logs <==> u in txs && txs[u].outcome == Undecided)
    && (forall u, i :: u in logs && 0 <= i < |logs[u]| ==> EffectOk(f, parts, txs[u], u, logs[u][i]))
  }

  ghost predicate PartsInv(parts: Parts) { forall p :: p in parts ==> PartInv(parts[p]) }

  ghost predicate TxsInv(txs: Txs) { forall u :: u in txs ==> TxInv(u, txs[u]) }

  /** The invariant of the system. */
  ghost predicate SysInv(f: Body, init: Store, s: Sys) {
    && PartsInv(s.parts) && TxsInv(s.txs) && Linked(s.parts, s.txs)
    && Logged(f, s.parts, s.txs, s.data.logs) && DataInv(f, init, s.data)
  }

  lemma InitInv(f: Body, partitions: set<nat>, init: Store)
    ensures SysInv(f, init, Init(partitions, init))
  {
    EmptyPartInv();
  }

  // ---------------------------------------------------------------------------
  // Keeping the link
  // ---------------------------------------------------------------------------

  // A partition moves without moving any action to another stage
  ghost predicate SameStages(place: Places, place': Places) {
    && place'.Keys == place.Keys
    && forall a :: a in place ==>
         && PlaceStage(place'[a]) == PlaceStage(place[a])
         && (place[a] in {Posting, Done} ==> place'[a] == place[a])
  }

  lemma PartMoves(f: Body, parts: Parts, txs: Txs, logs: map<nat, Log>, p: nat, q: Part)
    requires p in parts && Linked(parts, txs) && Logged(f, parts, txs, logs)
    requires SameStages(parts[p].place, q.place) && !parts[p].pc.Post?
    ensures Linked(parts[p := q], txs) && Logged(f, parts[p := q], txs, logs)
  {
    hide StageOf, Confined, Ran;
    var parts' := parts[p := q];
    forall r, a | r in parts' && a in parts'[r].place ensures PlaceOk(txs, r, parts'[r].place, a) {
      assert PlaceOk(txs, r, parts[r].place, a);
    }
    forall u, a | u in txs && a in txs[u].actions ensures SentOk(parts', txs[u], a) {
      assert SentOk(parts, txs[u], a);
    }
    forall u, i | u in logs && 0 <= i < |logs[u]| ensures EffectOk(f, parts', txs[u], u, logs[u][i]) {
      assert EffectOk(f, parts, txs[u], u, logs[u][i]);
    }
  }

  // A transaction moves without moving any action to another stage, perhaps with new actions
  ghost predicate SameActions(parts: Parts, t: Tx, t': Tx) {
    && (forall b :: StageOf(t', b) == StageOf(t, b))
    && (forall b :: b in t.actions ==> b in t'.actions)
    && (forall b :: b in t'.actions ==> b in t.actions || b.part in parts)
  }

  lemma TxMoves(parts: Parts, txs: Txs, u: nat, t': Tx)
    requires u in txs && Linked(parts, txs) && SameActions(parts, txs[u], t')
    ensures Linked(parts, txs[u := t'])
  {
    var txs' := txs[u := t'];
    forall p, a | p in parts && a in parts[p].place ensures PlaceOk(txs', p, parts[p].place, a) {
      assert PlaceOk(txs, p, parts[p].place, a);
    }
    forall v, a | v in txs' && a in txs'[v].actions ensures SentOk(parts, txs'[v], a) {
      if a in txs[v].actions { assert SentOk(parts, txs[v], a); }
    }
  }

  lemma TxMovesLogged(f: Body, parts: Parts, txs: Txs, logs: map<nat, Log>, u: nat, t': Tx)
    requires u in txs && Logged(f, parts, txs, logs)
    requires t'.outcome == txs[u].outcome && (txs[u].aborted ==> t'.aborted)
    ensures Logged(f, parts, txs[u := t'], logs)
  {
    forall v, i | v in logs && 0 <= i < |logs[v]| ensures EffectOk(f, parts, txs[u := t'][v], v, logs[v][i]) {
      assert EffectOk(f, parts, txs[v], v, logs[v][i]);
    }
  }

  // One action moves on, in its partition and in its transaction alike
  lemma BothMove(parts: Parts, txs: Txs, a: Action, q: Part, t': Tx, pl: Place)
    requires a.part in parts && a.tid in txs && Linked(parts, txs) && a in txs[a.tid].actions
    requires q.place == parts[a.part].place[a := pl] && t'.actions == txs[a.tid].actions
    requires StageOf(t', a) == PlaceStage(pl) && forall b :: b != a ==> StageOf(t', b) == StageOf(txs[a.tid], b)
    ensures Linked(parts[a.part := q], txs[a.tid := t'])
  {
    hide StageOf, PlaceStage;
    var parts', txs' := parts[a.part := q], txs[a.tid := t'];
    forall p, b | p in parts' && b in parts'[p].place ensures PlaceOk(txs', p, parts'[p].place, b) {
      if p != a.part || b != a { assert PlaceOk(txs, p, parts[p].place, b); }
    }
    forall v, b | v in txs' && b in txs'[v].actions ensures SentOk(parts', txs'[v], b) {
      assert SentOk(parts, txs[v], b);
    }
  }

  lemma BothMoveLogged(f: Body, parts: Parts, txs: Txs, logs: map<nat, Log>, a: Action, q: Part, t': Tx, pl: Place)
    requires a.part in parts && a.tid in txs && Logged(f, parts, txs, logs)
    requires q.place == parts[a.part].place[a := pl]
    requires t'.outcome == txs[a.tid].outcome && t'.aborted == txs[a.tid].aborted
    requires pl == Done || a !in parts[a.part].place || txs[a.tid].outcome != Undecided
    requires q.pc == parts[a.part].pc || (parts[a.part].pc.Post? && !parts[a.part].pc.err)
    ensures Logged(f, parts[a.part := q], txs[a.tid := t'], logs)
  {
    hide Confined, Ran;
    var parts', txs' := parts[a.part := q], txs[a.tid := t'];
    forall u, i | u in logs && 0 <= i < |logs[u]| ensures EffectOk(f, parts', txs'[u], u, logs[u][i]) {
      assert EffectOk(f, parts, txs[u], u, logs[u][i]);
    }
  }

  // ---------------------------------------------------------------------------
  // Isolation
  // ---------------------------------------------------------------------------

  ghost predicate AllHold(parts: Parts, logs: map<nat, Log>) {
    forall u, i :: u in logs && 0 <= i < |logs[u]| ==> Holds(parts, u, logs[u][i])
  }

  /** Two-phase locking isolates the undecided transactions: none has written what another
      one has touched. */
  lemma LocksIsolate(parts: Parts, logs: map<nat, Log>)
    requires PartsInv(parts) && AllHold(parts, logs)
    ensures Isolated(logs)
  {
    hide PartInv, Holds;
    forall u, v, x | u in logs && v in logs && u != v ensures Apart(logs[u], logs[v], x) {
      if WrittenBy(logs[u], x) && TouchedBy(logs[v], x) {
        var i :| 0 <= i < |logs[u]| && logs[u][i].a.part == x.part && x.key in logs[u][i].writes;
        var j :| 0 <= j < |logs[v]| && logs[v][j].a.part == x.part && x.key in logs[v][j].a.keys;
        HoldersAgree(parts, u, logs[u][i], v, logs[v][j], x.key);
      }
    }
  }

  // Two effects of different undecided transactions do not collide on a key
  lemma HoldersAgree(parts: Parts, u: nat, d: Effect, v: nat, e: Effect, k: Key)
    requires PartsInv(parts) && Holds(parts, u, d) && Holds(parts, v, e) && u != v && d.a.part == e.a.part
    ensures k in d.writes ==> k !in e.a.keys
  {
    hide PartInv;
    ServedNeverConflict(parts[d.a.part], d.a, e.a, k);
  }

  lemma LoggedHold(f: Body, parts: Parts, txs: Txs, logs: map<nat, Log>)
    requires Logged(f, parts, txs, logs)
    ensures AllHold(parts, logs)
  {
    hide Holds;
    forall u, i | u in logs && 0 <= i < |logs[u]| ensures Holds(parts, u, logs[u][i]) {
      assert EffectOk(f, parts, txs[u], u, logs[u][i]);
    }
  }

  // ---------------------------------------------------------------------------
  // Every step keeps the invariant, and finds the asserts of the code true
  // ---------------------------------------------------------------------------

  lemma BeginStep(f: Body, init: Store, s: Sys, u: nat, midways: nat, actions: seq<Action>)
    requires SysInv(f, init, s) && Guard(s, Begin(u, midways, actions))
    ensures SysInv(f, init, Apply(f, s, Begin(u, midways, actions)))
  {
    hide PartInv, WfActions, TxInv, DataInv, EffectOk, NewTx;
    var t, logs' := NewTx(midways, actions), s.data.logs[u := []];
    NewTxInv(u, midways, actions);
    BeginLink(s.parts, s.txs, u, midways, actions);
    SerialData.BeginKeeps(f, init, s.data, u);
    assert t.outcome == Undecided by { NewTxUndecided(midways, actions); }
    assert Logged(f, s.parts, s.txs[u := t], logs') by {
      forall v, i | v in logs' && 0 <= i < |logs'[v]| ensures EffectOk(f, s.parts, s.txs[u := t][v], v, logs'[v][i]) {
        assert EffectOk(f, s.parts, s.txs[v], v, s.data.logs[v][i]);
      }
    }
  }

  lemma NewTxUndecided(midways: nat, actions: seq<Action>)
    ensures NewTx(midways, actions).outcome == Undecided
  {
  }

  lemma BeginLink(parts: Parts, txs: Txs, u: nat, midways: nat, actions: seq<Action>)
    requires Linked(parts, txs) && u !in txs && SentToParts(parts, actions)
    ensures Linked(parts, txs[u := NewTx(midways, actions)])
  {
    var txs' := txs[u := NewTx(midways, actions)];
    forall p, a | p in parts && a in parts[p].place ensures PlaceOk(txs', p, parts[p].place, a) {
      assert PlaceOk(txs, p, parts[p].place, a);
    }
    forall v, a | v in txs' && a in txs'[v].actions ensures SentOk(parts, txs'[v], a) {
      if v != u { assert SentOk(parts, txs[v], a); }
    }
  }

  // A new action of a transaction finds no action of its own on its keys
  lemma NewIsSeparate(p: nat, part: Part, txs: Txs, a: Action)
    requires PartInv(part) && a.tid in txs && TxInv(a.tid, txs[a.tid]) && a in txs[a.tid].actions && a.part == p
    requires forall b :: b in part.place ==> PlaceOk(txs, p, part.place, b)
    requires a !in part.place
    ensures Separate(part.place[a := InInput])
  {
    hide LockSide, OrderSide, QueueSide;
    var place' := part.place[a := InInput];
    forall b, c, k | b in place' && c in place' && b != c && k in b.keys && k in c.keys ensures b.tid != c.tid {
      if b in part.place { assert PlaceOk(txs, p, part.place, b); }
      if c in part.place { assert PlaceOk(txs, p, part.place, c); }
    }
  }

  lemma SendMoves(f: Body, parts: Parts, txs: Txs, logs: map<nat, Log>, u: nat)
    requires PartsInv(parts) && TxsInv(txs) && Linked(parts, txs) && Logged(f, parts, txs, logs)
    requires u in txs && txs[u].toSend != []
    ensures var a := txs[u].toSend[0];
            && a.part in parts && PartInv(Enqueue(parts[a.part], a)) && TxInv(u, SentOne(txs[u]))
            && Linked(parts[a.part := Enqueue(parts[a.part], a)], txs[u := SentOne(txs[u])])
            && Logged(f, parts[a.part := Enqueue(parts[a.part], a)], txs[u := SentOne(txs[u])], logs)
  {
    hide PartInv, TxInv, EffectOk, WfActions;
    var t := txs[u];
    var a := t.toSend[0];
    SentOneInv(u, t);
    TxOwns(u, t, a);
    assert SentOk(parts, t, a);
    var part := parts[a.part];
    PlacedIsSent(parts, txs, a);
    NewIsSeparate(a.part, part, txs, a);
    EnqueueKeeps(part, a);
    BothMove(parts, txs, a, Enqueue(part, a), SentOne(t), InInput);
    BothMoveLogged(f, parts, txs, logs, a, Enqueue(part, a), SentOne(t), InInput);
  }

  lemma SendStep(f: Body, init: Store, s: Sys, u: nat)
    requires SysInv(f, init, s) && Guard(s, Send(u))
    ensures Asserts(s, Send(u)) && SysInv(f, init, Apply(f, s, Send(u)))
  {
    hide PartInv, TxInv, DataInv, Linked, Logged, Enqueue, SentOne;
    SendMoves(f, s.parts, s.txs, s.data.logs, u);
  }

  lemma PlacedIsSent(parts: Parts, txs: Txs, a: Action)
    requires Linked(parts, txs) && a.part in parts && a.tid in txs
    ensures a in parts[a.part].place ==> StageOf(txs[a.tid], a) == PlaceStage(parts[a.part].place[a])
  {
    if a in parts[a.part].place { assert PlaceOk(txs, a.part, parts[a.part].place, a); }
  }

  lemma TxOwns(u: nat, t: Tx, a: Action)
    requires TxInv(u, t) && a in t.actions
    ensures a.tid == u
  {
  }

  // The steps that only move the worker or the lock table of one partition
  ghost predicate Inside(s: Sys, step: Step) {
    match step
    case ToInput(_) => true
    case PopNothing(_) => true
    case Take(_) => true
    case DrainOne(_) => true
    case ServeEnd(_) => true
    case ServeOne(_) => true
    case _ => false
  }

  lemma TakePart(part: Part)
    requires PartInv(part) && part.pc == Input && part.input != []
    ensures PartInv(TakeInput(part)) && SameStages(part.place, TakeInput(part).place)
  {
    TakeInputKeeps(part);
  }

  lemma DrainPart(part: Part)
    requires PartInv(part) && part.pc == Loop && part.committed != []
    ensures CanDrain(part) && PartInv(Drain(part)) && SameStages(part.place, Drain(part).place)
  {
    hide PartInv, CanDrain, Drain;
    DrainKeeps(part);
  }

  lemma ServePart(part: Part, aborted: bool)
    requires PartInv(part) && part.pc.Serve? && part.pc.todo != []
    ensures var a := part.pc.todo[0]; At(part.place, a, Ready) && a in part.needed && part.needed[a] == 0
    ensures PartInv(ServeNext(part, aborted)) && SameStages(part.place, ServeNext(part, aborted).place)
  {
    hide PartInv;
    ServeNextKeeps(part, aborted);
    ReadyCounter(part, part.pc.todo[0]);
  }

  lemma InsideStep(f: Body, init: Store, s: Sys, step: Step)
    requires SysInv(f, init, s) && Inside(s, step) && Guard(s, step)
    ensures Asserts(s, step) && SysInv(f, init, Apply(f, s, step))
  {
    hide PartInv, TxInv, DataInv, EffectOk, WfActions, CanDrain, Drain, TakeInput, PlaceOk, SentOk, Logged, Linked;
    match step
    case ToInput(p) => PcKeeps(s.parts[p], Input); PartMoves(f, s.parts, s.txs, s.data.logs, p, NoCommit(s.parts[p]));
    case PopNothing(p) => PcKeeps(s.parts[p], Loop); PartMoves(f, s.parts, s.txs, s.data.logs, p, EmptyPop(s.parts[p]));
    case ServeEnd(p) => PcKeeps(s.parts[p], Loop); PartMoves(f, s.parts, s.txs, s.data.logs, p, ServeNone(s.parts[p]));
    case Take(p) => TakePart(s.parts[p]); PartMoves(f, s.parts, s.txs, s.data.logs, p, TakeInput(s.parts[p]));
    case DrainOne(p) => DrainPart(s.parts[p]); PartMoves(f, s.parts, s.txs, s.data.logs, p, Drain(s.parts[p]));
    case ServeOne(p) => ServeStep(f, init, s, p);
  }

  lemma ServeStep(f: Body, init: Store, s: Sys, p: nat)
    requires SysInv(f, init, s) && Guard(s, ServeOne(p))
    ensures Asserts(s, ServeOne(p)) && SysInv(f, init, Apply(f, s, ServeOne(p)))
  {
    hide PartInv, TxInv, DataInv, EffectOk, WfActions, SentOk, Logged;
    var part := s.parts[p];
    var a := part.pc.todo[0];
    ServePart(part, true);
    assert PlaceOk(s.txs, p, part.place, a);
    var aborted := s.txs[a.tid].aborted;
    ServePart(part, aborted);
    PartMoves(f, s.parts, s.txs, s.data.logs, p, ServeNext(part, aborted));
  }

  // The action in the hands of the worker belongs to a transaction that waits for it
  lemma WorkerHolds(f: Body, init: Store, s: Sys, p: nat, a: Action)
    requires SysInv(f, init, s) && p in s.parts && a in s.parts[p].place && PlaceStage(s.parts[p].place[a]) == Pending
    ensures a.part == p && a.tid in s.txs && StageOf(s.txs[a.tid], a) == Pending && a in s.txs[a.tid].actions
    ensures s.txs[a.tid].count > 0 && s.txs[a.tid].outcome == Undecided && a.tid in s.data.logs && a.tid in s.data.undo
  {
    hide PartInv, EffectOk, WfActions, StoreInv, SerialRun, SentOk;
    assert PlaceOk(s.txs, p, s.parts[p].place, a);
    PostOneInv(a.tid, s.txs[a.tid], a);
    assert s.data.logs.Keys == s.data.undo.Keys by { DataKeys(f, init, s.data); }
  }

  lemma DataKeys(f: Body, init: Store, d: Data)
    requires DataInv(f, init, d)
    ensures d.logs.Keys == d.undo.Keys
  {
  }

  // ---------------------------------------------------------------------------
  // An action body runs
  // ---------------------------------------------------------------------------

  lemma BodyLogged(f: Body, parts: Parts, txs: Txs, logs: map<nat, Log>, p: nat, e: Effect, err: bool)
    requires p in parts && Logged(f, parts, txs, logs) && parts[p].pc.Exec? && e.a == parts[p].pc.a
    requires At(parts[p].place, e.a, Executing) && e.a.part == p && e.a.tid in txs && e.a.tid in logs
    requires Confined(e) && (e.ok ==> Ran(f, e)) && (e.ok || err || txs[e.a.tid].aborted)
    ensures Logged(f, parts[p := EndExec(parts[p], err)], txs, logs[e.a.tid := logs[e.a.tid] + [e]])
  {
    hide Confined, Ran;
    var parts' := parts[p := EndExec(parts[p], err)];
    var logs' := logs[e.a.tid := logs[e.a.tid] + [e]];
    forall u, i | u in logs' && 0 <= i < |logs'[u]| ensures EffectOk(f, parts', txs[u], u, logs'[u][i]) {
      if u != e.a.tid || i < |logs[u]| {
        assert logs'[u][i] == logs[u][i];
        assert EffectOk(f, parts, txs[u], u, logs[u][i]);
      } else {
        assert logs'[u][i] == e;
      }
    }
  }

  lemma EndExecMoves(parts: Parts, txs: Txs, p: nat, err: bool)
    requires p in parts && PartInv(parts[p]) && parts[p].pc.Exec? && Linked(parts, txs)
    ensures At(parts[p].place, parts[p].pc.a, Executing)
    ensures PartInv(EndExec(parts[p], err)) && Linked(parts[p := EndExec(parts[p], err)], txs)
  {
    hide PartInv, StageOf;
    EndExecKeeps(parts[p], err);
    var parts' := parts[p := EndExec(parts[p], err)];
    forall r, a | r in parts' && a in parts'[r].place ensures PlaceOk(txs, r, parts'[r].place, a) {
      assert PlaceOk(txs, r, parts[r].place, a);
    }
    forall u, a | u in txs && a in txs[u].actions ensures SentOk(parts', txs[u], a) {
      assert SentOk(parts, txs[u], a);
    }
  }

  lemma BodyFacts(f: Body, s: Sys, a: Action, partial: map<Key, int>, err: bool)
    requires a.tid in s.txs
    ensures var e := BodyEffect(f, s, a, partial, err);
            && e.a == a && Confined(e) && e.view == View(s.data.store, a)
            && (e.ok ==> Ran(f, e)) && (e.ok || err || s.txs[a.tid].aborted)
  {
  }

  lemma BodyStep(f: Body, init: Store, s: Sys, p: nat, partial: map<Key, int>, err: bool)
    requires SysInv(f, init, s) && Guard(s, RunBody(p, partial, err))
    ensures Asserts(s, RunBody(p, partial, err)) && SysInv(f, init, Apply(f, s, RunBody(p, partial, err)))
  {
    hide PartInv, TxInv, DataInv, Linked, Logged, EndExec, BodyEffect, Isolated, Confined, Ran, ExecData;
    var a := s.parts[p].pc.a;
    EndExecMoves(s.parts, s.txs, p, err);
    WorkerHolds(f, init, s, p, a);
    var e := BodyEffect(f, s, a, partial, err);
    BodyFacts(f, s, a, partial, err);
    BodyLogged(f, s.parts, s.txs, s.data.logs, p, e, err);
    var parts', logs' := s.parts[p := EndExec(s.parts[p], err)], s.data.logs[a.tid := s.data.logs[a.tid] + [e]];
    LoggedHold(f, parts', s.txs, logs');
    LocksIsolate(parts', logs');
    ExecKeeps(f, init, s.data, a.tid, e);
    ExecLogs(s.data, a.tid, e);
  }

  lemma ExecLogs(d: Data, u: nat, e: Effect)
    requires u in d.logs && u in d.undo
    ensures ExecData(d, u, e).logs == d.logs[u := d.logs[u] + [e]]
  {
  }

  // ---------------------------------------------------------------------------
  // An action posts
  // ---------------------------------------------------------------------------

  lemma MarkMoves(f: Body, parts: Parts, txs: Txs, logs: map<nat, Log>, p: nat)
    requires p in parts && parts[p].pc.Post? && Linked(parts, txs) && Logged(f, parts, txs, logs)
    requires var u := parts[p].pc.a.tid; u in txs && TxInv(u, txs[u]) && txs[u].outcome == Undecided
    ensures var u := parts[p].pc.a.tid; var txs' := txs[u := SetAbort(txs[u])];
            var parts' := parts[p := AbortSet(parts[p])];
            Linked(parts', txs') && Logged(f, parts', txs', logs)
  {
    hide WfActions, Confined, Ran;
    var u := parts[p].pc.a.tid;
    var txs', parts' := txs[u := SetAbort(txs[u])], parts[p := AbortSet(parts[p])];
    SetAbortInv(u, txs[u]);
    hide StageOf;
    forall r, a | r in parts' && a in parts'[r].place ensures PlaceOk(txs', r, parts'[r].place, a) {
      assert PlaceOk(txs, r, parts[r].place, a);
    }
    forall v, a | v in txs' && a in txs'[v].actions ensures SentOk(parts', txs'[v], a) {
      assert SentOk(parts, txs[v], a);
    }
    forall v, i | v in logs && 0 <= i < |logs[v]| ensures EffectOk(f, parts', txs'[v], v, logs[v][i]) {
      assert EffectOk(f, parts, txs[v], v, logs[v][i]);
    }
  }

  lemma PostsPending(part: Part)
    requires PartInv(part) && part.pc.Post?
    ensures At(part.place, part.pc.a, Posting) && PlaceStage(part.place[part.pc.a]) == Pending
  {
    hide Separate, LockSide, OrderSide;
    assert part.pc.a in InPost(part.pc);
  }

  lemma MarkStep(f: Body, init: Store, s: Sys, p: nat)
    requires SysInv(f, init, s) && Guard(s, MarkAbort(p))
    ensures Asserts(s, MarkAbort(p)) && SysInv(f, init, Apply(f, s, MarkAbort(p)))
  {
    hide PartInv, TxInv, DataInv, Linked, Logged, SetAbort;
    var part := s.parts[p];
    PostsPending(part);
    WorkerHolds(f, init, s, p, part.pc.a);
    PcKeeps(part, AbortSet(part).pc);
    MarkMoves(f, s.parts, s.txs, s.data.logs, p);
    SetAbortInv(part.pc.a.tid, s.txs[part.pc.a.tid]);
  }

  lemma PostStep(f: Body, init: Store, s: Sys, p: nat)
    requires SysInv(f, init, s) && Guard(s, PostAction(p))
    ensures Asserts(s, PostAction(p)) && SysInv(f, init, Apply(f, s, PostAction(p)))
  {
    hide PartInv, TxInv, DataInv, Linked, Logged, StageOf, PlaceStage;
    var part := s.parts[p];
    var a := part.pc.a;
    PostsPending(part);
    WorkerHolds(f, init, s, p, a);
    AfterPostKeeps(part);
    PostOneInv(a.tid, s.txs[a.tid], a);
    assert PlaceStage(Done) == Posted by { DoneIsPosted(); }
    BothMove(s.parts, s.txs, a, AfterPost(part), PostOne(s.txs[a.tid], a), Done);
    BothMoveLogged(f, s.parts, s.txs, s.data.logs, a, AfterPost(part), PostOne(s.txs[a.tid], a), Done);
  }

  lemma DoneIsPosted()
    ensures PlaceStage(Done) == Posted && PlaceStage(InCommitted) == Notified
  {
  }

  // ---------------------------------------------------------------------------
  // A rendezvous point runs
  // ---------------------------------------------------------------------------

  lemma MidwayStep(f: Body, init: Store, s: Sys, u: nat, next: seq<Action>)
    requires SysInv(f, init, s) && Guard(s, Midway(u, next))
    ensures SysInv(f, init, Apply(f, s, Midway(u, next)))
  {
    hide PartInv, TxInv, DataInv, Linked, Logged, StageOf, RunMidway, WfActions;
    RunMidwayInv(u, s.txs[u], next);
    var t' := RunMidway(s.txs[u], next);
    MidwayUndecided(u, s.txs[u]);
    TxMoves(s.parts, s.txs, u, t');
    TxMovesLogged(f, s.parts, s.txs, s.data.logs, u, t');
  }

  lemma MidwayUndecided(u: nat, t: Tx)
    requires TxInv(u, t) && t.mode == Running
    ensures t.outcome == Undecided
  {
  }

  // Once every action has posted, the effects of a transaction that is not aborted are whole
  lemma AllWhole(f: Body, parts: Parts, txs: Txs, logs: map<nat, Log>, u: nat)
    requires PartsInv(parts) && Linked(parts, txs) && Logged(f, parts, txs, logs)
    requires u in logs && !txs[u].aborted && txs[u].pending == {}
    ensures AllRan(f, logs[u])
  {
    hide PartInv, Ran, Confined;
    forall i | 0 <= i < |logs[u]| ensures logs[u][i].ok && Ran(f, logs[u][i]) {
      var e := logs[u][i];
      assert EffectOk(f, parts, txs[u], u, e);
      var part := parts[e.a.part];
      assert PlaceOk(txs, e.a.part, part.place, e.a);
      if part.pc.Post? && part.pc.a == e.a {
        PostsPending(part);
      }
    }
  }

  lemma TerminalLogged(f: Body, parts: Parts, txs: Txs, logs: map<nat, Log>, u: nat, t': Tx)
    requires u in txs && Logged(f, parts, txs, logs) && t'.outcome != Undecided
    ensures Logged(f, parts, txs[u := t'], logs - {u})
  {
    hide EffectOk;
    forall v, i | v in logs - {u} && 0 <= i < |logs[v]| ensures EffectOk(f, parts, txs[v], v, logs[v][i]) {
      assert EffectOk(f, parts, txs[v], v, logs[v][i]);
    }
  }

  lemma TerminalMoves(f: Body, init: Store, s: Sys, u: nat, commitOk: bool)
    requires SysInv(f, init, s) && u in s.txs && u in s.data.logs && u in s.data.undo && s.txs[u].pending == {}
    ensures DataInv(f, init, TerminalData(s, u, commitOk))
    ensures TerminalData(s, u, commitOk).logs == s.data.logs - {u}
  {
    hide PartInv, TxInv, DataInv, Linked, Logged, Isolated, AllRan;
    LoggedHold(f, s.parts, s.txs, s.data.logs);
    LocksIsolate(s.parts, s.data.logs);
    if s.txs[u].aborted || !commitOk {
      AbortKeeps(f, init, s.data, u);
    } else {
      AllWhole(f, s.parts, s.txs, s.data.logs, u);
      CommitKeeps(f, init, s.data, u);
    }
  }

  lemma UndecidedLogs(f: Body, init: Store, s: Sys, u: nat)
    requires SysInv(f, init, s) && u in s.txs
    ensures u in s.data.logs <==> s.txs[u].outcome == Undecided
    ensures u in s.data.undo <==> s.txs[u].outcome == Undecided
  {
    hide PartInv, TxInv, DataInv, Linked, EffectOk;
    DataKeys(f, init, s.data);
  }

  lemma TerminalStep(f: Body, init: Store, s: Sys, u: nat, commitOk: bool, lazy: bool, lsn: nat)
    requires SysInv(f, init, s) && Guard(s, Terminal(u, commitOk, lazy, lsn))
    ensures Asserts(s, Terminal(u, commitOk, lazy, lsn))
    ensures SysInv(f, init, Apply(f, s, Terminal(u, commitOk, lazy, lsn)))
  {
    hide PartInv, TxInv, DataInv, Linked, Logged, StageOf, TerminalData;
    RunTerminalInv(u, s.txs[u], commitOk, lazy, lsn);
    UndecidedLogs(f, init, s, u);
    var t' := RunTerminal(s.txs[u], commitOk, lazy, lsn);
    TerminalMoves(f, init, s, u, commitOk);
    TxMoves(s.parts, s.txs, u, t');
    TerminalLogged(f, s.parts, s.txs, s.data.logs, u, t');
  }

  lemma FlushedStep(f: Body, init: Store, s: Sys, u: nat)
    requires SysInv(f, init, s) && Guard(s, Flushed(u))
    ensures SysInv(f, init, Apply(f, s, Flushed(u)))
  {
    hide PartInv, TxInv, DataInv, Linked, Logged, StageOf;
    FlushDoneInv(u, s.txs[u]);
    TxMoves(s.parts, s.txs, u, FlushDone(s.txs[u]));
    TxMovesLogged(f, s.parts, s.txs, s.data.logs, u, FlushDone(s.txs[u]));
  }

  // The head of the notification list is an action that has posted and was not notified
  lemma HomeHead(u: nat, t: Tx)
    requires TxInv(u, t) && t.toNotify != []
    ensures var a := t.toNotify[0]; a in t.actions && a.tid == u && StageOf(t, a) == Posted
    ensures t.outcome != Undecided
  {
    HasMember(t.toNotify);
    NotifyOneInv(u, t);
  }

  lemma HomeMoves(f: Body, parts: Parts, txs: Txs, logs: map<nat, Log>, u: nat)
    requires PartsInv(parts) && TxsInv(txs) && Linked(parts, txs) && Logged(f, parts, txs, logs)
    requires u in txs && txs[u].toNotify != []
    ensures var a := txs[u].toNotify[0];
            && a.part in parts && PartInv(EnqueueCommit(parts[a.part], a)) && TxInv(u, NotifyOne(txs[u]))
            && Linked(parts[a.part := EnqueueCommit(parts[a.part], a)], txs[u := NotifyOne(txs[u])])
            && Logged(f, parts[a.part := EnqueueCommit(parts[a.part], a)], txs[u := NotifyOne(txs[u])], logs)
  {
    hide PartInv, TxInv, EffectOk, StageOf;
    var t := txs[u];
    var a := t.toNotify[0];
    HomeHead(u, t);
    NotifyOneInv(u, t);
    assert SentOk(parts, t, a);
    var part := parts[a.part];
    assert PlaceOk(txs, a.part, part.place, a);
    EnqueueCommitKeeps(part, a);
    BothMove(parts, txs, a, EnqueueCommit(part, a), NotifyOne(t), InCommitted);
    BothMoveLogged(f, parts, txs, logs, a, EnqueueCommit(part, a), NotifyOne(t), InCommitted);
  }

  lemma HomeStep(f: Body, init: Store, s: Sys, u: nat)
    requires SysInv(f, init, s) && Guard(s, SendHome(u))
    ensures Asserts(s, SendHome(u)) && SysInv(f, init, Apply(f, s, SendHome(u)))
  {
    hide PartInv, TxInv, DataInv, Linked, Logged, EnqueueCommit, NotifyOne;
    HomeMoves(f, s.parts, s.txs, s.data.logs, u);
  }

  /** In every state that satisfies the invariant, each step that the code can reach finds
      its asserts true and leads to a state that satisfies the invariant again. */
  lemma StepKeeps(f: Body, init: Store, s: Sys, step: Step)
    requires SysInv(f, init, s) && Guard(s, step)
    ensures Asserts(s, step) && SysInv(f, init, Apply(f, s, step))
  {
    if Inside(s, step) {
      InsideStep(f, init, s, step);
    } else {
      OutsideStep(f, init, s, step);
    }
  }

  lemma OutsideStep(f: Body, init: Store, s: Sys, step: Step)
    requires SysInv(f, init, s) && Guard(s, step) && !Inside(s, step)
    ensures Asserts(s, step) && SysInv(f, init, Apply(f, s, step))
  {
    hide SysInv, Guard, Asserts, Apply;
    match step
    case Begin(u, midways, actions) =>
      assert Asserts(s, step) by { NoAsserts(s, step); }
      BeginStep(f, init, s, u, midways, actions);
    case Send(u) => SendStep(f, init, s, u);
    case RunBody(p, partial, err) => BodyStep(f, init, s, p, partial, err);
    case MarkAbort(p) => MarkStep(f, init, s, p);
    case PostAction(p) => PostStep(f, init, s, p);
    case Midway(u, next) => assert Asserts(s, step) by { NoAsserts(s, step); } MidwayStep(f, init, s, u, next);
    case Terminal(u, commitOk, lazy, lsn) => TerminalStep(f, init, s, u, commitOk, lazy, lsn);
    case Harden(lsn) => assert Asserts(s, step) by { NoAsserts(s, step); } HardenStep(f, init, s, lsn);
    case Flushed(u) => assert Asserts(s, step) by { NoAsserts(s, step); } FlushedStep(f, init, s, u);
    case SendHome(u) => HomeStep(f, init, s, u);
    case _ =>
  }

  lemma NoAsserts(s: Sys, step: Step)
    requires Guard(s, step) && (step.Begin? || step.Midway? || step.Harden? || step.Flushed?)
    ensures Asserts(s, step)
  {
  }

  lemma HardenStep(f: Body, init: Store, s: Sys, lsn: nat)
    requires SysInv(f, init, s) && Guard(s, Harden(lsn))
    ensures SysInv(f, init, Apply(f, s, Harden(lsn)))
  {
    hide PartsInv, TxsInv, DataInv, Linked, Logged;
  }
}
