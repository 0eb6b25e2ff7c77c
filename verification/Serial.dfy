/** The data that the actions read and write, with rollback: the store at any time is the
    serial replay of the committed transactions, in the order in which they committed, plus
    the writes of the transactions that are still undecided. */
module SerialData {
  import opened KeyWrappers
  import opened LockOrder

  datatype Item = Item(part: nat, key: Key)

  type Store = map<Item, int>

  function Read(s: Store, x: Item): int { if x in s then s[x] else 0 }

  // What an action saw and what it wrote; ok says that it ran to its end
  datatype Effect = Effect(a: Action, view: map<Key, int>, writes: map<Key, int>, ok: bool)

  type Log = seq<Effect>

  function View(s: Store, a: Action): map<Key, int> { map k | k in a.keys :: Read(s, Item(a.part, k)) }

  // The items that an effect writes
  function Images(part: nat, writes: map<Key, int>): Store { map k | k in writes :: Item(part, k) := writes[k] }

  function Put(s: Store, e: Effect): Store { s + Images(e.a.part, e.writes) }

  function Replay(s: Store, log: Log): Store
    decreases |log|
  {
    if log == [] then s else Replay(Put(s, log[0]), log[1..])
  }

  // What an action body computes from what it sees
  type Body = (Action, map<Key, int>) -> map<Key, int>

  // An effect stays inside the keys that its action has locked
  ghost predicate Confined(e: Effect) {
    && (forall k :: k in e.writes ==> k in e.a.keys)
    && (e.a.readOnly ==> e.writes == map[])
  }

  // Running the log alone from s, every action sees what it saw
  ghost predicate SeenFrom(s: Store, log: Log)
    decreases |log|
  {
    log != [] ==> log[0].view == View(s, log[0].a) && SeenFrom(Put(s, log[0]), log[1..])
  }

  ghost predicate WrittenBy(log: Log, x: Item) {
    exists i :: 0 <= i < |log| && log[i].a.part == x.part && x.key in log[i].writes
  }

  ghost predicate TouchedBy(log: Log, x: Item) {
    exists i :: 0 <= i < |log| && log[i].a.part == x.part && x.key in log[i].a.keys
  }

  ghost predicate AllConfined(log: Log) { forall i :: 0 <= i < |log| ==> Confined(log[i]) }

  // The writes of an action to keys that it has locked exclusively
  function Confine(a: Action, writes: map<Key, int>): map<Key, int> {
    map k | k in writes && k in a.keys && !a.readOnly :: writes[k]
  }

  // The effect of a body that runs to its end
  ghost predicate Ran(f: Body, e: Effect) { e.writes == Confine(e.a, f(e.a, e.view)) }

  ghost predicate AllRan(f: Body, log: Log) {
    forall i :: 0 <= i < |log| ==> log[i].ok && Ran(f, log[i])
  }

  lemma ReadPut(s: Store, e: Effect, x: Item)
    ensures Read(Put(s, e), x) == if e.a.part == x.part && x.key in e.writes then e.writes[x.key] else Read(s, x)
  {
    assert x in Images(e.a.part, e.writes) <==> e.a.part == x.part && x.key in e.writes;
  }

  // ---------------------------------------------------------------------------
  // Logs
  // ---------------------------------------------------------------------------

  lemma {:induction false} ReplayAppend(s: Store, log: Log, e: Effect)
    ensures Replay(s, log + [e]) == Put(Replay(s, log), e)
    ensures SeenFrom(s, log + [e]) <==> SeenFrom(s, log) && e.view == View(Replay(s, log), e.a)
    decreases |log|
  {
    if log == [] {
      assert (log + [e])[1..] == [];
    } else {
      assert (log + [e])[1..] == log[1..] + [e];
      ReplayAppend(Put(s, log[0]), log[1..], e);
    }
  }

  // Replaying a log changes only what it writes, and leaves there its own last value
  lemma {:induction false} ReplayReads(s: Store, s': Store, log: Log, x: Item)
    ensures !WrittenBy(log, x) ==> Read(Replay(s, log), x) == Read(s, x)
    ensures WrittenBy(log, x) ==> Read(Replay(s, log), x) == Read(Replay(s', log), x)
    ensures Read(s, x) == Read(s', x) ==> Read(Replay(s, log), x) == Read(Replay(s', log), x)
    decreases |log|
  {
    if log != [] {
      ReadPut(s, log[0], x);
      ReadPut(s', log[0], x);
      WrittenTail(log, x);
      ReplayReads(Put(s, log[0]), Put(s', log[0]), log[1..], x);
    }
  }

  lemma WrittenTail(log: Log, x: Item)
    requires log != []
    ensures WrittenBy(log, x) <==> (log[0].a.part == x.part && x.key in log[0].writes) || WrittenBy(log[1..], x)
    ensures TouchedBy(log, x) <==> (log[0].a.part == x.part && x.key in log[0].a.keys) || TouchedBy(log[1..], x)
  {
    assert forall i :: 0 <= i < |log[1..]| ==> log[1..][i] == log[i + 1];
    assert forall i :: 0 < i < |log| ==> log[i] == log[1..][i - 1];
  }

  lemma WrittenAppend(log: Log, e: Effect, x: Item)
    ensures WrittenBy(log + [e], x) <==> WrittenBy(log, x) || (e.a.part == x.part && x.key in e.writes)
    ensures TouchedBy(log + [e], x) <==> TouchedBy(log, x) || (e.a.part == x.part && x.key in e.a.keys)
  {
    var both := log + [e];
    assert both[|log|] == e;
    assert forall i :: 0 <= i < |log| ==> both[i] == log[i];
  }

  lemma WrittenIsTouched(log: Log, x: Item)
    requires AllConfined(log)
    ensures WrittenBy(log, x) ==> TouchedBy(log, x)
  {
    if WrittenBy(log, x) {
      var i :| 0 <= i < |log| && log[i].a.part == x.part && x.key in log[i].writes;
      assert Confined(log[i]);
    }
  }

  // What a log sees depends only on the items it touches
  lemma {:induction false} SeenElsewhere(s: Store, s': Store, log: Log)
    requires SeenFrom(s, log) && forall x :: TouchedBy(log, x) ==> Read(s, x) == Read(s', x)
    ensures SeenFrom(s', log)
    decreases |log|
  {
    if log != [] {
      var e := log[0];
      forall x ensures TouchedBy(log[1..], x) ==> Read(Put(s, e), x) == Read(Put(s', e), x) {
        WrittenTail(log, x);
        ReadPut(s, e, x);
        ReadPut(s', e, x);
      }
      forall k | k in e.a.keys ensures Read(s, Item(e.a.part, k)) == Read(s', Item(e.a.part, k)) {
        WrittenTail(log, Item(e.a.part, k));
      }
      assert View(s, e.a) == View(s', e.a);
      SeenElsewhere(Put(s, e), Put(s', e), log[1..]);
    }
  }

  // ---------------------------------------------------------------------------
  // The store, the undecided transactions with their before-images, and the commits
  // ---------------------------------------------------------------------------

  datatype Commit = Commit(tid: nat, log: Log)

  datatype Data = Data(
    store: Store,
    logs: map<nat, Log>,
    undo: map<nat, Store>,
    committed: seq<Commit>)

  // The store that the commits alone would have left
  function Base(init: Store, committed: seq<Commit>): Store {
    if committed == [] then init
    else
      var last := |committed| - 1;
      Replay(Base(init, committed[..last]), committed[last].log)
  }

  /** Run one after the other in commit order, from the initial store, every action of every
      committed transaction sees exactly what it saw, and runs to its end. */
  ghost predicate SerialRun(f: Body, init: Store, committed: seq<Commit>) {
    committed != [] ==>
      var last := |committed| - 1;
      && SerialRun(f, init, committed[..last])
      && SeenFrom(Base(init, committed[..last]), committed[last].log)
      && AllRan(f, committed[last].log)
  }

  function BeginData(d: Data, u: nat): Data { d.(logs := d.logs[u := []], undo := d.undo[u := map[]]) }

  // The before-images of an effect; an item keeps its first one
  function Before(s: Store, e: Effect): Store { map x | x in Images(e.a.part, e.writes) :: Read(s, x) }

  function ExecData(d: Data, u: nat, e: Effect): Data
    requires u in d.logs && u in d.undo
  {
    Data(Put(d.store, e), d.logs[u := d.logs[u] + [e]], d.undo[u := Before(d.store, e) + d.undo[u]], d.committed)
  }

  function CommitData(d: Data, u: nat): Data
    requires u in d.logs
  {
    Data(d.store, d.logs - {u}, d.undo - {u}, d.committed + [Commit(u, d.logs[u])])
  }

  // Rollback writes the before-images back
  function AbortData(d: Data, u: nat): Data
    requires u in d.undo
  {
    Data(d.store + d.undo[u], d.logs - {u}, d.undo - {u}, d.committed)
  }

  ghost predicate Apart(lu: Log, lv: Log, x: Item) { WrittenBy(lu, x) ==> !TouchedBy(lv, x) }

  // No undecided transaction has written what another one has touched
  ghost predicate Isolated(logs: map<nat, Log>) {
    forall u, v, x :: u in logs && v in logs && u != v ==> Apart(logs[u], logs[v], x)
  }

  // One item of an undecided transaction: rollback would restore what the commits left, and
  // until then the store holds what the transaction wrote
  ghost predicate OwnItem(base: Store, store: Store, log: Log, undo: Store, x: Item) {
    && (x in undo <==> WrittenBy(log, x))
    && (x in undo ==> undo[x] == Read(base, x) && Read(store, x) == Read(Replay(base, log), x))
  }

  // One undecided transaction against the store of the commits
  ghost predicate LogInv(base: Store, store: Store, log: Log, undo: Store) {
    AllConfined(log) && SeenFrom(base, log) && forall x :: OwnItem(base, store, log, undo, x)
  }

  ghost predicate NoWriter(logs: map<nat, Log>, x: Item) { forall u :: u in logs ==> !WrittenBy(logs[u], x) }

  // Items that no undecided transaction has written
  ghost predicate RestInv(base: Store, store: Store, logs: map<nat, Log>) {
    forall x :: NoWriter(logs, x) ==> Read(store, x) == Read(base, x)
  }

  ghost predicate StoreInv(base: Store, d: Data) {
    && d.logs.Keys == d.undo.Keys
    && (forall u :: u in d.logs ==> LogInv(base, d.store, d.logs[u], d.undo[u]))
    && RestInv(base, d.store, d.logs)
  }

  /** The invariant of the data. */
  ghost predicate DataInv(f: Body, init: Store, d: Data) {
    SerialRun(f, init, d.committed) && StoreInv(Base(init, d.committed), d)
  }

  // What a transaction reads is what it would read on its own after the commits
  lemma ReadsAlone(base: Store, d: Data, u: nat, x: Item)
    requires StoreInv(base, d) && u in d.logs
    requires forall v :: v in d.logs && v != u ==> !WrittenBy(d.logs[v], x)
    ensures Read(d.store, x) == Read(Replay(base, d.logs[u]), x)
    ensures !WrittenBy(d.logs[u], x) ==> Read(d.store, x) == Read(base, x)
  {
    hide WrittenBy, SeenFrom, AllConfined;
    assert LogInv(base, d.store, d.logs[u], d.undo[u]);
    assert OwnItem(base, d.store, d.logs[u], d.undo[u], x);
    ReplayReads(base, base, d.logs[u], x);
    assert !WrittenBy(d.logs[u], x) ==> NoWriter(d.logs, x);
  }

  lemma BeginKeeps(f: Body, init: Store, d: Data, u: nat)
    requires DataInv(f, init, d) && u !in d.logs
    ensures DataInv(f, init, BeginData(d, u))
  {
    hide LogInv, SerialRun, NoWriter, Read;
    var base := Base(init, d.committed);
    BeginLog(base, d.store);
    forall x ensures NoWriter(d.logs[u := []], x) ==> NoWriter(d.logs, x) {
      NoWriterBegin(d.logs, u, x);
    }
  }

  lemma NoWriterBegin(logs: map<nat, Log>, u: nat, x: Item)
    requires u !in logs
    ensures NoWriter(logs[u := []], x) ==> NoWriter(logs, x)
  {
    hide WrittenBy;
    assert forall v :: v in logs ==> logs[u := []][v] == logs[v];
  }

  lemma BeginLog(base: Store, store: Store)
    ensures LogInv(base, store, [], map[])
  {
  }

  // ---------------------------------------------------------------------------
  // An action executes
  // ---------------------------------------------------------------------------

  lemma LogAppend(log: Log, e: Effect)
    requires AllConfined(log) && Confined(e)
    ensures AllConfined(log + [e])
  {
  }

  lemma InImages(e: Effect, x: Item)
    ensures x in Images(e.a.part, e.writes) <==> e.a.part == x.part && x.key in e.writes
    ensures Confined(e) && x in Images(e.a.part, e.writes) ==> x.key in e.a.keys
  {
  }

  // An item the action touches: nobody else has written it
  lemma TouchesAlone(base: Store, d: Data, u: nat, e: Effect, x: Item)
    requires StoreInv(base, d) && u in d.logs && Isolated(d.logs[u := d.logs[u] + [e]])
    requires e.a.part == x.part && x.key in e.a.keys
    ensures Read(d.store, x) == Read(Replay(base, d.logs[u]), x)
    ensures !WrittenBy(d.logs[u], x) ==> Read(d.store, x) == Read(base, x)
  {
    hide WrittenBy, TouchedBy, LogInv, RestInv;
    var log' := d.logs[u] + [e];
    WrittenAppend(d.logs[u], e, x);
    forall v | v in d.logs && v != u ensures !WrittenBy(d.logs[v], x) {
      assert Apart(d.logs[u := log'][v], d.logs[u := log'][u], x);
    }
    ReadsAlone(base, d, u, x);
  }

  lemma ExecOwnItem(base: Store, d: Data, u: nat, e: Effect, x: Item)
    requires StoreInv(base, d) && u in d.logs && Confined(e) && Isolated(d.logs[u := d.logs[u] + [e]])
    ensures OwnItem(base, Put(d.store, e), d.logs[u] + [e], Before(d.store, e) + d.undo[u], x)
  {
    hide WrittenBy, TouchedBy, RestInv, Isolated, SeenFrom, AllConfined, Replay, Put;
    var log := d.logs[u];
    assert LogInv(base, d.store, log, d.undo[u]);
    assert OwnItem(base, d.store, log, d.undo[u], x);
    ReplayAppend(base, log, e);
    WrittenAppend(log, e, x);
    ReadPut(d.store, e, x);
    ReadPut(Replay(base, log), e, x);
    InImages(e, x);
    if x in Images(e.a.part, e.writes) { TouchesAlone(base, d, u, e, x); }
  }

  lemma ExecOwnLog(base: Store, d: Data, u: nat, e: Effect)
    requires StoreInv(base, d) && u in d.logs && Confined(e) && e.view == View(d.store, e.a)
    requires Isolated(d.logs[u := d.logs[u] + [e]])
    ensures LogInv(base, Put(d.store, e), d.logs[u] + [e], Before(d.store, e) + d.undo[u])
  {
    hide OwnItem, RestInv, Isolated, SeenFrom, AllConfined, Replay, Put, Read, Confined, WrittenBy;
    var log := d.logs[u];
    assert LogInv(base, d.store, log, d.undo[u]);
    LogAppend(log, e);
    ReplayAppend(base, log, e);
    forall k | k in e.a.keys ensures Read(d.store, Item(e.a.part, k)) == Read(Replay(base, log), Item(e.a.part, k)) {
      TouchesAlone(base, d, u, e, Item(e.a.part, k));
    }
    assert View(d.store, e.a) == View(Replay(base, log), e.a);
    forall x ensures OwnItem(base, Put(d.store, e), log + [e], Before(d.store, e) + d.undo[u], x) {
      ExecOwnItem(base, d, u, e, x);
    }
  }

  lemma ExecOtherLog(base: Store, d: Data, u: nat, e: Effect, v: nat)
    requires StoreInv(base, d) && u in d.logs && v in d.logs && v != u && Confined(e)
    requires Isolated(d.logs[u := d.logs[u] + [e]])
    ensures LogInv(base, Put(d.store, e), d.logs[v], d.undo[v])
  {
    hide WrittenBy, TouchedBy, RestInv, SeenFrom, AllConfined, Replay, Put, Read;
    var logs' := d.logs[u := d.logs[u] + [e]];
    assert LogInv(base, d.store, d.logs[v], d.undo[v]);
    forall x ensures OwnItem(base, Put(d.store, e), d.logs[v], d.undo[v], x) {
      assert OwnItem(base, d.store, d.logs[v], d.undo[v], x);
      assert Apart(logs'[v], logs'[u], x);
      WrittenAppend(d.logs[u], e, x);
      ReadPut(d.store, e, x);
    }
  }

  lemma ExecRest(base: Store, d: Data, u: nat, e: Effect)
    requires StoreInv(base, d) && u in d.logs
    ensures RestInv(base, Put(d.store, e), d.logs[u := d.logs[u] + [e]])
  {
    hide WrittenBy, TouchedBy, LogInv, Put, Read;
    var logs' := d.logs[u := d.logs[u] + [e]];
    forall x | NoWriter(logs', x) ensures Read(Put(d.store, e), x) == Read(base, x) {
      WrittenAppend(d.logs[u], e, x);
      ReadPut(d.store, e, x);
      assert !WrittenBy(logs'[u], x);
      assert forall v :: v in d.logs && v != u ==> logs'[v] == d.logs[v];
      assert NoWriter(d.logs, x);
    }
  }

  /** An action that executes alone on its items keeps the invariant. */
  lemma ExecKeeps(f: Body, init: Store, d: Data, u: nat, e: Effect)
    requires DataInv(f, init, d) && u in d.logs && Confined(e) && e.view == View(d.store, e.a)
    requires Isolated(d.logs[u := d.logs[u] + [e]])
    ensures DataInv(f, init, ExecData(d, u, e))
  {
    hide LogInv, RestInv, SerialRun, Isolated, Confined, Put, Before;
    var base := Base(init, d.committed);
    ExecRest(base, d, u, e);
    ExecOwnLog(base, d, u, e);
    forall v | v in d.logs && v != u ensures LogInv(base, Put(d.store, e), d.logs[v], d.undo[v]) {
      ExecOtherLog(base, d, u, e, v);
    }
  }

  // ---------------------------------------------------------------------------
  // A transaction commits or aborts
  // ---------------------------------------------------------------------------

  lemma BaseAppend(f: Body, init: Store, committed: seq<Commit>, c: Commit)
    ensures Base(init, committed + [c]) == Replay(Base(init, committed), c.log)
    ensures SerialRun(f, init, committed + [c]) <==>
              SerialRun(f, init, committed) && SeenFrom(Base(init, committed), c.log) && AllRan(f, c.log)
  {
    assert (committed + [c])[..|committed|] == committed;
  }

  lemma CommitOtherLog(base: Store, d: Data, u: nat, v: nat)
    requires StoreInv(base, d) && u in d.logs && v in d.logs && v != u && Isolated(d.logs)
    ensures LogInv(Replay(base, d.logs[u]), d.store, d.logs[v], d.undo[v])
  {
    hide WrittenBy, TouchedBy, RestInv, SeenFrom, AllConfined, Replay, Read;
    var base' := Replay(base, d.logs[u]);
    assert LogInv(base, d.store, d.logs[v], d.undo[v]);
    forall x ensures TouchedBy(d.logs[v], x) ==> Read(base, x) == Read(base', x) {
      assert Apart(d.logs[u], d.logs[v], x);
      ReplayReads(base, base, d.logs[u], x);
    }
    SeenElsewhere(base, base', d.logs[v]);
    forall x ensures OwnItem(base', d.store, d.logs[v], d.undo[v], x) {
      assert OwnItem(base, d.store, d.logs[v], d.undo[v], x);
      WrittenIsTouched(d.logs[v], x);
      ReplayReads(base, base', d.logs[v], x);
    }
  }

  // Whoever leaves, the others' writes stay
  lemma NoWriterLeft(logs: map<nat, Log>, u: nat, x: Item)
    requires u in logs && NoWriter(logs - {u}, x) && !WrittenBy(logs[u], x)
    ensures NoWriter(logs, x)
  {
    hide WrittenBy;
    forall v | v in logs ensures !WrittenBy(logs[v], x) {
      assert v != u ==> v in logs - {u} && (logs - {u})[v] == logs[v];
    }
  }

  lemma CommitRest(base: Store, d: Data, u: nat)
    requires StoreInv(base, d) && u in d.logs
    ensures RestInv(Replay(base, d.logs[u]), d.store, d.logs - {u})
  {
    hide WrittenBy, SeenFrom, AllConfined, Replay, NoWriter, Read;
    assert LogInv(base, d.store, d.logs[u], d.undo[u]);
    forall x | NoWriter(d.logs - {u}, x) ensures Read(d.store, x) == Read(Replay(base, d.logs[u]), x) {
      assert OwnItem(base, d.store, d.logs[u], d.undo[u], x);
      ReplayReads(base, base, d.logs[u], x);
      if !WrittenBy(d.logs[u], x) { NoWriterLeft(d.logs, u, x); }
    }
  }

  /** A commit appends to the serial order: what the transaction saw is what it would see
      there, and the store is the replay of the longer history. */
  lemma CommitKeeps(f: Body, init: Store, d: Data, u: nat)
    requires DataInv(f, init, d) && u in d.logs && Isolated(d.logs) && AllRan(f, d.logs[u])
    ensures DataInv(f, init, CommitData(d, u))
  {
    hide RestInv, SerialRun, Isolated, AllRan, SeenFrom, Replay, AllConfined, OwnItem;
    var base := Base(init, d.committed);
    assert LogInv(base, d.store, d.logs[u], d.undo[u]);
    BaseAppend(f, init, d.committed, Commit(u, d.logs[u]));
    CommitRest(base, d, u);
    forall v | v in d.logs && v != u ensures LogInv(Replay(base, d.logs[u]), d.store, d.logs[v], d.undo[v]) {
      CommitOtherLog(base, d, u, v);
    }
  }

  lemma AbortOtherLog(base: Store, d: Data, u: nat, v: nat)
    requires StoreInv(base, d) && u in d.logs && v in d.logs && v != u && Isolated(d.logs)
    ensures LogInv(base, d.store + d.undo[u], d.logs[v], d.undo[v])
  {
    hide WrittenBy, TouchedBy, RestInv, SeenFrom, AllConfined, Replay;
    assert LogInv(base, d.store, d.logs[v], d.undo[v]);
    assert LogInv(base, d.store, d.logs[u], d.undo[u]);
    forall x ensures OwnItem(base, d.store + d.undo[u], d.logs[v], d.undo[v], x) {
      assert OwnItem(base, d.store, d.logs[v], d.undo[v], x);
      assert OwnItem(base, d.store, d.logs[u], d.undo[u], x);
      assert Apart(d.logs[u], d.logs[v], x);
      WrittenIsTouched(d.logs[v], x);
    }
  }

  lemma AbortRest(base: Store, d: Data, u: nat)
    requires StoreInv(base, d) && u in d.logs
    ensures RestInv(base, d.store + d.undo[u], d.logs - {u})
  {
    hide WrittenBy, SeenFrom, AllConfined, Replay, NoWriter;
    assert LogInv(base, d.store, d.logs[u], d.undo[u]);
    forall x | NoWriter(d.logs - {u}, x) ensures Read(d.store + d.undo[u], x) == Read(base, x) {
      assert OwnItem(base, d.store, d.logs[u], d.undo[u], x);
      if x !in d.undo[u] { NoWriterLeft(d.logs, u, x); }
    }
  }

  /** Rollback leaves the store as if the transaction had never run. */
  lemma AbortKeeps(f: Body, init: Store, d: Data, u: nat)
    requires DataInv(f, init, d) && u in d.logs && Isolated(d.logs)
    ensures DataInv(f, init, AbortData(d, u))
  {
    hide RestInv, SerialRun, Isolated, LogInv;
    var base := Base(init, d.committed);
    AbortRest(base, d, u);
    forall v | v in d.logs && v != u ensures LogInv(base, d.store + d.undo[u], d.logs[v], d.undo[v]) {
      AbortOtherLog(base, d, u, v);
    }
  }

  /** When no transaction is undecided, the store is the serial replay of the commits. */
  lemma QuietStoreIsSerial(f: Body, init: Store, d: Data)
    requires DataInv(f, init, d) && d.logs == map[]
    ensures forall x :: Read(d.store, x) == Read(Base(init, d.committed), x)
    ensures SerialRun(f, init, d.committed)
  {
    assert forall x :: NoWriter(d.logs, x);
  }
}
