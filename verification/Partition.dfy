/** One partition and its worker: the input queue, the lock table, the committed queue and
    the loop that drains commits, serves the actions they wake, and takes new input. */
module Partitions {
  import opened KeyWrappers
  import opened LockModes
  import opened LogicalLocks
  import opened LockTables
  import opened LockOrder
  import opened Sequences

  // Where an action of this partition is.  This is an auxiliary variable: the queues, the
  // lock table and the worker determine it.
  datatype Place = InInput | Waiting | Ready | Executing | Posting | Done | InCommitted | Released

  // What the worker is doing: at the top of its loop, at the input queue, about to serve a
  // list of ready actions, inside trx_exec(), or about to post
  datatype Pc =
    | Loop
    | Input
    | Serve(todo: seq<Action>)
    | Exec(a: Action, todo: seq<Action>)
    | Post(a: Action, err: bool, todo: seq<Action>)

  type Places = map<Action, Place>

  datatype Part = Part(
    table: LockTable,
    needed: map<Action, int>,
    order: seq<Action>,
    input: seq<Action>,
    committed: seq<Action>,
    pc: Pc,
    place: Places)

  function EmptyPart(): Part { Part(map[], map[], [], [], [], Loop, map[]) }

  function Todo(pc: Pc): seq<Action> {
    match pc
    case Loop => []
    case Input => []
    case Serve(todo) => todo
    case Exec(_, todo) => todo
    case Post(_, _, todo) => todo
  }

  function InExec(pc: Pc): seq<Action> { if pc.Exec? then [pc.a] else [] }

  function InPost(pc: Pc): seq<Action> { if pc.Post? then [pc.a] else [] }

  // ---------------------------------------------------------------------------
  // The steps
  // ---------------------------------------------------------------------------

  function Enqueue(p: Part, a: Action): Part {
    p.(input := p.input + [a], place := p.place[a := InInput])
  }

  // has_committed() is false: go on to the input queue
  function NoCommit(p: Part): Part { p.(pc := Input) }

  // The pop of the input queue came back empty-handed
  function EmptyPop(p: Part): Part { p.(pc := Loop) }

  // Take the next input action and ask for all its locks; serve it if it got them
  function TakeInput(p: Part): Part
    requires p.input != []
  {
    var a := p.input[0];
    var (t, n) := AcquireAll(p.table, RequestsOf(a.keys, RequestOf(a)));
    var missing := |a.keys| - n;
    Part(t, p.needed[a := missing], p.order + [a], p.input[1..], p.committed,
         if missing == 0 then Serve([a]) else Loop,
         p.place[a := if missing == 0 then Ready else Waiting])
  }

  // Take the next committed action, release its locks, and go on to serve whom that woke
  function Drain(p: Part): Part
    requires CanDrain(p)
  {
    var a := p.committed[0];
    var (t, promoted) := ReleaseKeys(p.table, a.keys, a.tid);
    var (needed, ready) := Wake(p.needed, promoted);
    Part(t, needed, WithoutAt(p.order, PositionOf(p.order, a)), p.input, p.committed[1..], Serve(ready),
         map b | b in p.place :: if b == a then Released else if b in ready then Ready else p.place[b])
  }

  // What release() and gotkeys() assert: each key has a lock that the transaction owns, and
  // no counter goes below zero
  ghost predicate CanDrain(p: Part) {
    && p.committed != [] && p.committed[0] in p.order
    && OwnsAll(p.table, p.committed[0].keys, p.committed[0].tid)
    && CanWakeAll(p.needed, ReleaseKeys(p.table, p.committed[0].keys, p.committed[0].tid).1)
  }

  function PositionOf(order: seq<Action>, a: Action): (i: nat)
    requires a in order
    ensures i < |order| && order[i] == a
  {
    if order[0] == a then 0 else 1 + PositionOf(order[1..], a)
  }

  function ServeNone(p: Part): Part { p.(pc := Loop) }

  // The next ready action starts executing, or, if its transaction has already been aborted,
  // goes straight to the rendezvous
  function ServeNext(p: Part, aborted: bool): Part
    requires p.pc.Serve? && p.pc.todo != []
  {
    var a := p.pc.todo[0];
    if aborted then p.(pc := Post(a, false, p.pc.todo[1..]), place := p.place[a := Posting])
    else p.(pc := Exec(a, p.pc.todo[1..]), place := p.place[a := Executing])
  }

  function EndExec(p: Part, err: bool): Part
    requires p.pc.Exec?
  {
    p.(pc := Post(p.pc.a, err, p.pc.todo), place := p.place[p.pc.a := Posting])
  }

  // post(true) aborts the transaction before it counts down
  function AbortSet(p: Part): Part
    requires p.pc.Post?
  {
    p.(pc := Post(p.pc.a, false, p.pc.todo))
  }

  // The countdown has been posted
  function AfterPost(p: Part): Part
    requires p.pc.Post?
  {
    p.(pc := Serve(p.pc.todo), place := p.place[p.pc.a := Done])
  }

  // notify_own_partition()
  function EnqueueCommit(p: Part, a: Action): Part {
    p.(committed := p.committed + [a], place := p.place[a := InCommitted])
  }

  // ---------------------------------------------------------------------------
  // The invariant
  // ---------------------------------------------------------------------------

  predicate Held(pl: Place) { pl != InInput && pl != Released }

  ghost predicate At(place: Places, a: Action, pl: Place) { a in place && place[a] == pl }

  // An action that may be served: it misses no key
  predicate Served(pl: Place) { Held(pl) && pl != Waiting }

  function KeyLists(actions: set<Action>): map<Action, seq<Key>> { map a | a in actions :: a.keys }

  // The actions of a partition have keys, and those of one transaction share none
  ghost predicate Separate(place: Places) {
    && (forall a :: a in place ==> a.keys != [] && NoDup(a.keys))
    && (forall a, b, k :: a in place && b in place && a != b && k in a.keys && k in b.keys ==> a.tid != b.tid)
  }

  // The lock side: the table is that of the order, the counters are right
  ghost predicate LockSide(table: LockTable, needed: map<Action, int>, order: seq<Action>) {
    && WfOrder(order) && TableIs(table, order) && TableInv(table)
    && Accounted(table, needed, KeyLists(needed.Keys))
  }

  // The place of an action agrees with the order and with its counter
  ghost predicate OrderAt(order: seq<Action>, needed: map<Action, int>, place: Places, a: Action) {
    && (a in order <==> a in place && Held(place[a]))
    && (a in needed <==> a in place && place[a] != InInput)
    && (At(place, a, Waiting) ==> needed[a] > 0)
    && (a in place && place[a] != InInput && place[a] != Waiting ==> needed[a] == 0)
  }

  ghost predicate OrderSide(order: seq<Action>, needed: map<Action, int>, place: Places) {
    forall a :: OrderAt(order, needed, place, a)
  }

  // A list holds, once each, exactly the actions at a place
  ghost predicate Lists(xs: seq<Action>, place: Places, pl: Place) {
    NoDup(xs) && forall a :: a in xs <==> At(place, a, pl)
  }

  ghost predicate QueueSide(input: seq<Action>, committed: seq<Action>, pc: Pc, place: Places) {
    && Lists(input, place, InInput)
    && Lists(committed, place, InCommitted)
    && Lists(Todo(pc), place, Ready)
    && Lists(InExec(pc), place, Executing)
    && Lists(InPost(pc), place, Posting)
  }

  /** The invariant of a partition. */
  ghost predicate PartInv(p: Part) {
    && Separate(p.place)
    && LockSide(p.table, p.needed, p.order)
    && OrderSide(p.order, p.needed, p.place)
    && QueueSide(p.input, p.committed, p.pc, p.place)
  }

  lemma EmptyPartInv()
    ensures PartInv(EmptyPart())
  {
    assert forall k :: OrderLine([], k) == [];
  }

  // ---------------------------------------------------------------------------
  // What the invariant gives
  // ---------------------------------------------------------------------------

  /** is_ready() holds for exactly the actions that no earlier unreleased action blocks. */
  lemma ReadyIffRunnable(p: Part, i: nat)
    requires PartInv(p) && i < |p.order|
    ensures p.order[i] in p.needed && p.order[i] in p.place
    ensures p.needed[p.order[i]] == 0 <==> Runnable(p.order[..i], p.order[i])
    ensures Served(p.place[p.order[i]]) <==> Runnable(p.order[..i], p.order[i])
  {
    hide WfOrder, TableIs, TableInv, QueueSide, Separate;
    var a := p.order[i];
    assert a in p.order;
    assert OrderAt(p.order, p.needed, p.place, a);
    assert CountIsRight(p.table, p.needed, KeyLists(p.needed.Keys), a);
    MissingIsBlocked(p.table, p.order, i, a.keys);
  }

  /** An action that is being served, has been served or has been committed, but is not yet
      released, owns every lock it asked for: two-phase locking, strict to the release. */
  lemma ServedOwnsAll(p: Part, a: Action)
    requires PartInv(p) && a in p.place && Served(p.place[a])
    ensures OwnsAll(p.table, a.keys, a.tid) && a in p.needed && p.needed[a] == 0
  {
    hide WfOrder, TableIs, TableInv, QueueSide, Separate, Runnable;
    assert OrderAt(p.order, p.needed, p.place, a);
    var i := PositionOf(p.order, a);
    ReadyIffRunnable(p, i);
    LeaveOrder(p.table, p.order, i);
  }

  /** Two actions that may be served at the same time never conflict. */
  lemma ServedNeverConflict(p: Part, a: Action, b: Action, k: Key)
    requires PartInv(p) && a in p.place && b in p.place && Served(p.place[a]) && Served(p.place[b]) && a != b
    ensures !Conflict(a, b, k)
  {
    hide LockSide, QueueSide, Separate, Runnable;
    assert OrderAt(p.order, p.needed, p.place, a);
    assert OrderAt(p.order, p.needed, p.place, b);
    var i, j := PositionOf(p.order, a), PositionOf(p.order, b);
    ReadyIffRunnable(p, i);
    ReadyIffRunnable(p, j);
    if i < j {
      RunnableNeverConflict(p.order, i, j, k);
    } else {
      RunnableNeverConflict(p.order, j, i, k);
    }
  }

  /** Partition-local deadlock freedom in every state: the oldest unreleased action owns all
      its keys and is not waiting, and a waiting action waits only for earlier ones. */
  lemma NoLocalDeadlock(p: Part)
    requires PartInv(p) && p.order != []
    ensures OwnsAll(p.table, p.order[0].keys, p.order[0].tid)
    ensures p.order[0] in p.place && Served(p.place[p.order[0]])
    ensures forall j, k :: 0 <= j < |p.order| && Waits(p.table, p.order[j], k) ==>
              exists i :: 0 <= i < j && Conflict(p.order[i], p.order[j], k)
  {
    hide QueueSide, Separate, OrderAt;
    OldestOwnsAll(p.table, p.order);
    assert p.order[0] in p.order;
    assert p.order[..0] == [];
    ReadyIffRunnable(p, 0);
  }

  ghost predicate Waits(t: LockTable, a: Action, k: Key) {
    k in a.keys && WaitEntries(Lookup(t, k), a) > 0
  }

  // ---------------------------------------------------------------------------
  // Every step keeps the invariant
  // ---------------------------------------------------------------------------

  lemma HeadLeaves(xs: seq<Action>, place: Places, pl: Place, pl': Place)
    requires xs != [] && Lists(xs, place, pl) && pl' != pl
    ensures Lists(xs[1..], place[xs[0] := pl'], pl)
    ensures At(place, xs[0], pl)
  {
    TailOf(xs);
    assert xs[0] in xs;
  }

  lemma TailJoins(xs: seq<Action>, place: Places, pl: Place, a: Action)
    requires Lists(xs, place, pl) && !At(place, a, pl)
    ensures Lists(xs + [a], place[a := pl], pl)
  {
    var ys := xs + [a];
    assert a !in xs;
    assert forall b :: b in ys <==> b in xs || b == a;
  }

  lemma OthersStay(xs: seq<Action>, place: Places, pl: Place, a: Action, pl': Place)
    requires Lists(xs, place, pl) && !At(place, a, pl) && pl' != pl
    ensures Lists(xs, place[a := pl'], pl)
  {
  }

  lemma EmptyJoins(place: Places, pl: Place, a: Action)
    requires Lists([], place, pl) && !At(place, a, pl)
    ensures Lists([a], place[a := pl], pl)
  {
    TailJoins([], place, pl, a);
    assert [] + [a] == [a];
  }

  lemma OneLeaves(place: Places, pl: Place, pl': Place, a: Action)
    requires Lists([a], place, pl) && pl' != pl
    ensures Lists([], place[a := pl'], pl) && At(place, a, pl)
  {
    HeadLeaves([a], place, pl, pl');
    assert [a][1..] == [];
  }

  // A served action stays served: the counter and the order do not change
  lemma ServedMoves(order: seq<Action>, needed: map<Action, int>, place: Places, a: Action, pl': Place)
    requires OrderSide(order, needed, place) && a in place && Served(place[a]) && Served(pl')
    ensures OrderSide(order, needed, place[a := pl'])
  {
    var place' := place[a := pl'];
    forall b ensures OrderAt(order, needed, place', b) {
      assert OrderAt(order, needed, place, b);
    }
  }

  lemma SeparateMoves(place: Places, a: Action, pl': Place)
    requires Separate(place) && a in place
    ensures Separate(place[a := pl'])
  {
  }

  lemma EnqueueKeeps(p: Part, a: Action)
    requires PartInv(p) && a !in p.place && Separate(p.place[a := InInput])
    ensures PartInv(Enqueue(p, a))
  {
    hide Separate, LockSide;
    var place' := p.place[a := InInput];
    forall b ensures OrderAt(p.order, p.needed, place', b) {
      assert OrderAt(p.order, p.needed, p.place, b);
    }
    hide Lists, OrderAt;
    QueueMoves(p, a);
    TailJoins(p.input, p.place, InInput, a);
    OthersStay(p.committed, p.place, InCommitted, a, InInput);
    OthersStay(Todo(p.pc), p.place, Ready, a, InInput);
    OthersStay(InExec(p.pc), p.place, Executing, a, InInput);
    OthersStay(InPost(p.pc), p.place, Posting, a, InInput);
  }

  // The assert of _serve_action(): who is ready misses no key
  lemma ReadyCounter(p: Part, a: Action)
    requires PartInv(p) && At(p.place, a, Ready)
    ensures a in p.needed && p.needed[a] == 0
  {
    hide Separate, LockSide, QueueSide;
    assert OrderAt(p.order, p.needed, p.place, a);
  }

  lemma QueueMoves(p: Part, a: Action)
    requires QueueSide(p.input, p.committed, p.pc, p.place)
    ensures Lists(p.input, p.place, InInput) && Lists(p.committed, p.place, InCommitted)
    ensures Lists(Todo(p.pc), p.place, Ready) && Lists(InExec(p.pc), p.place, Executing)
    ensures Lists(InPost(p.pc), p.place, Posting)
  {
  }

  lemma PcKeeps(p: Part, pc': Pc)
    requires PartInv(p) && Todo(pc') == Todo(p.pc) && InExec(pc') == InExec(p.pc) && InPost(pc') == InPost(p.pc)
    ensures PartInv(p.(pc := pc'))
  {
    hide Separate, LockSide, OrderSide, Lists;
  }

  lemma ServeNextKeeps(p: Part, aborted: bool)
    requires PartInv(p) && p.pc.Serve? && p.pc.todo != []
    ensures PartInv(ServeNext(p, aborted))
    ensures At(p.place, p.pc.todo[0], Ready)
  {
    hide Separate, LockSide, OrderSide, Lists;
    var a, pl' := p.pc.todo[0], if aborted then Posting else Executing;
    HeadLeaves(p.pc.todo, p.place, Ready, pl');
    ServedMoves(p.order, p.needed, p.place, a, pl');
    SeparateMoves(p.place, a, pl');
    OthersStay(p.input, p.place, InInput, a, pl');
    OthersStay(p.committed, p.place, InCommitted, a, pl');
    if aborted {
      EmptyJoins(p.place, Posting, a);
      OthersStay(InExec(p.pc), p.place, Executing, a, pl');
    } else {
      EmptyJoins(p.place, Executing, a);
      OthersStay(InPost(p.pc), p.place, Posting, a, pl');
    }
  }

  lemma EndExecKeeps(p: Part, err: bool)
    requires PartInv(p) && p.pc.Exec?
    ensures PartInv(EndExec(p, err))
    ensures At(p.place, p.pc.a, Executing)
  {
    hide Separate, LockSide, OrderSide, Lists;
    var a := p.pc.a;
    OneLeaves(p.place, Executing, Posting, a);
    EmptyJoins(p.place, Posting, a);
    ServedMoves(p.order, p.needed, p.place, a, Posting);
    SeparateMoves(p.place, a, Posting);
    OthersStay(p.input, p.place, InInput, a, Posting);
    OthersStay(p.committed, p.place, InCommitted, a, Posting);
    OthersStay(Todo(p.pc), p.place, Ready, a, Posting);
  }

  lemma AfterPostKeeps(p: Part)
    requires PartInv(p) && p.pc.Post?
    ensures PartInv(AfterPost(p))
    ensures At(p.place, p.pc.a, Posting)
  {
    hide Separate, LockSide, OrderSide, Lists;
    var a := p.pc.a;
    OneLeaves(p.place, Posting, Done, a);
    ServedMoves(p.order, p.needed, p.place, a, Done);
    SeparateMoves(p.place, a, Done);
    OthersStay(p.input, p.place, InInput, a, Done);
    OthersStay(p.committed, p.place, InCommitted, a, Done);
    OthersStay(Todo(p.pc), p.place, Ready, a, Done);
    OthersStay(InExec(p.pc), p.place, Executing, a, Done);
  }

  lemma EnqueueCommitKeeps(p: Part, a: Action)
    requires PartInv(p) && At(p.place, a, Done)
    ensures PartInv(EnqueueCommit(p, a))
  {
    hide Separate, LockSide, OrderSide, Lists;
    ServedMoves(p.order, p.needed, p.place, a, InCommitted);
    SeparateMoves(p.place, a, InCommitted);
    TailJoins(p.committed, p.place, InCommitted, a);
    OthersStay(p.input, p.place, InInput, a, InCommitted);
    OthersStay(Todo(p.pc), p.place, Ready, a, InCommitted);
    OthersStay(InExec(p.pc), p.place, Executing, a, InCommitted);
    OthersStay(InPost(p.pc), p.place, Posting, a, InCommitted);
  }

  // ---------------------------------------------------------------------------
  // Taking input
  // ---------------------------------------------------------------------------

  // A new action of the partition extends the order
  lemma MayJoin(order: seq<Action>, needed: map<Action, int>, place: Places, a: Action)
    requires WfOrder(order) && Separate(place) && OrderSide(order, needed, place) && At(place, a, InInput)
    ensures WfOrder(order + [a]) && a !in needed && a !in order
  {
    assert OrderAt(order, needed, place, a);
    forall i | 0 <= i < |order| ensures order[i] in place && order[i] != a {
      assert OrderAt(order, needed, place, order[i]);
    }
  }

  // Nobody of its transaction is in a lock that a new action asks for
  lemma JoinIsFresh(t: LockTable, order: seq<Action>, a: Action)
    requires TableIs(t, order) && WfOrder(order + [a])
    ensures Fresh(t, a.keys, a.tid)
  {
    hide WfOrder;
    forall k | k in a.keys
      ensures !HasTid(Lookup(t, k).owners, a.tid) && !HasTid(Lookup(t, k).waiters, a.tid)
    {
      TidNotInLine(order, a, k);
      LineIsWf(order, k);
      AcquireOnLine(OrderLine(order, k), RequestOf(a));
    }
  }

  lemma TakeInputLocks(t: LockTable, needed: map<Action, int>, order: seq<Action>, a: Action)
    requires LockSide(t, needed, order) && WfOrder(order + [a]) && a !in needed && a.keys != [] && NoDup(a.keys)
    ensures var (t', n) := AcquireAll(t, RequestsOf(a.keys, RequestOf(a)));
            LockSide(t', needed[a := |a.keys| - n], order + [a])
  {
    hide WfOrder, TableIs, TableInv, Accounted, Fresh, NoDup, AcquireAll;
    JoinIsFresh(t, order, a);
    JoinOrder(t, order, a);
    AcquireAllTable(t, a.keys, RequestOf(a));
    TakeInputAccounts(t, needed, a);
  }

  lemma TakeInputAccounts(t: LockTable, needed: map<Action, int>, a: Action)
    requires TableInv(t) && Accounted(t, needed, KeyLists(needed.Keys)) && Fresh(t, a.keys, a.tid)
    requires a !in needed && NoDup(a.keys)
    ensures var (t', n) := AcquireAll(t, RequestsOf(a.keys, RequestOf(a)));
            Accounted(t', needed[a := |a.keys| - n], KeyLists(needed[a := |a.keys| - n].Keys))
  {
    hide TableInv, Accounted, Fresh, NoDup, AcquireAll;
    AcquireAllKeepsAccounts(t, needed, KeyLists(needed.Keys), a.keys, RequestOf(a));
    var n := AcquireAll(t, RequestsOf(a.keys, RequestOf(a))).1;
    assert KeyLists(needed[a := |a.keys| - n].Keys) == KeyLists(needed.Keys)[a := a.keys];
  }

  lemma TakeInputKeeps(p: Part)
    requires PartInv(p) && p.pc == Input && p.input != []
    ensures PartInv(TakeInput(p))
    ensures At(p.place, p.input[0], InInput)
  {
    hide Separate, LockSide, WfOrder, AcquireAll, QueueSide, OrderSide, Lists, NoDup;
    var a := p.input[0];
    var n := AcquireAll(p.table, RequestsOf(a.keys, RequestOf(a))).1;
    InputHead(p);
    TakeInputLocks(p.table, p.needed, p.order, a);
    TakeInputOrder(p, n);
    TakeInputQueues(p, n);
    SeparateMoves(p.place, a, if |a.keys| == n then Ready else Waiting);
  }

  lemma InputHead(p: Part)
    requires PartInv(p) && p.input != []
    ensures var a := p.input[0];
            && At(p.place, a, InInput) && WfOrder(p.order + [a]) && a !in p.needed && a.keys != [] && NoDup(a.keys)
  {
    hide TableIs, TableInv, Accounted, OrderAt, NoDup, WfOrder;
    HeadLeaves(p.input, p.place, InInput, Waiting);
    MayJoin(p.order, p.needed, p.place, p.input[0]);
  }

  lemma TakeInputOrder(p: Part, n: nat)
    requires p.input != [] && OrderSide(p.order, p.needed, p.place) && At(p.place, p.input[0], InInput)
    requires n <= |p.input[0].keys|
    ensures var a := p.input[0]; var missing := |a.keys| - n;
            OrderSide(p.order + [a], p.needed[a := missing], p.place[a := if missing == 0 then Ready else Waiting])
  {
    var a := p.input[0];
    var missing := |a.keys| - n;
    var needed', place' := p.needed[a := missing], p.place[a := if missing == 0 then Ready else Waiting];
    forall b ensures OrderAt(p.order + [a], needed', place', b) {
      assert OrderAt(p.order, p.needed, p.place, b);
    }
  }

  lemma TakeInputQueues(p: Part, n: nat)
    requires p.input != [] && QueueSide(p.input, p.committed, p.pc, p.place) && p.pc == Input
    requires n <= |p.input[0].keys|
    ensures var a := p.input[0]; var ready := n == |a.keys|;
            QueueSide(p.input[1..], p.committed, if ready then Serve([a]) else Loop,
                      p.place[a := if ready then Ready else Waiting])
  {
    hide Lists;
    var a := p.input[0];
    var pl' := if n == |a.keys| then Ready else Waiting;
    HeadLeaves(p.input, p.place, InInput, pl');
    OthersStay(p.committed, p.place, InCommitted, a, pl');
    OthersStay([], p.place, Executing, a, pl');
    OthersStay([], p.place, Posting, a, pl');
    if pl' == Ready {
      EmptyJoins(p.place, Ready, a);
    } else {
      OthersStay([], p.place, Ready, a, pl');
    }
  }

  // ---------------------------------------------------------------------------
  // Draining a commit
  // ---------------------------------------------------------------------------

  /** The asserts of release() and gotkeys() hold whenever a commit is drained: the action
      still owns all its locks, and every promotion finds a missing key. */
  lemma DrainNeverFails(p: Part)
    requires PartInv(p) && p.committed != []
    ensures CanDrain(p)
    ensures At(p.place, p.committed[0], InCommitted)
  {
    var a := p.committed[0];
    assert a in p.committed;
    assert OrderAt(p.order, p.needed, p.place, a);
    ServedOwnsAll(p, a);
    hide WfOrder, TableIs, TableInv, QueueSide, OrderSide, OwnsAll, CanWakeAll, ReleaseKeys;
    ReleaseAllCanWake(p.table, p.needed, KeyLists(p.needed.Keys), a.keys, a.tid);
  }

  lemma DrainLocks(t: LockTable, needed: map<Action, int>, order: seq<Action>, i: nat)
    requires LockSide(t, needed, order) && i < |order| && Runnable(order[..i], order[i]) && NoDup(order[i].keys)
    ensures OwnsAll(t, order[i].keys, order[i].tid)
    ensures var (t', promoted) := ReleaseKeys(t, order[i].keys, order[i].tid);
            && CanWakeAll(needed, promoted)
            && var (needed', ready) := Wake(needed, promoted);
            && LockSide(t', needed', WithoutAt(order, i))
            && JustReady(needed, needed', ready)
  {
    hide WfOrder, TableIs, TableInv, CanWake, ReleaseKeys, Wake, Accounted, Runnable, WithoutAt, NoDup, KeyLists;
    LeaveOrder(t, order, i);
    WfOrderWithout(order, i);
    ReleaseAllCanWake(t, needed, KeyLists(needed.Keys), order[i].keys, order[i].tid);
    ReleaseAllKeepsAccounts(t, needed, KeyLists(needed.Keys), order[i].keys, order[i].tid);
  }

  // The ready list holds, once each, exactly the actions whose last missing key has arrived,
  // and no other counter reached zero
  ghost predicate JustReady(needed: map<Action, int>, needed': map<Action, int>, ready: seq<Action>) {
    && needed'.Keys == needed.Keys
    && forall b :: b in needed ==>
         && multiset(ready)[b] == (if needed[b] > 0 && needed'[b] == 0 then 1 else 0)
         && 0 <= needed'[b] <= needed[b]
  }

  function DrainPlaces(place: Places, a: Action, ready: seq<Action>): Places {
    map b | b in place :: if b == a then Released else if b in ready then Ready else place[b]
  }

  lemma OnceEach(ready: seq<Action>)
    requires forall b :: multiset(ready)[b] <= 1
    ensures NoDup(ready)
  {
    forall i, j | 0 <= i < j < |ready| ensures ready[i] != ready[j] {
      assert ready == ready[..j] + ready[j..];
      assert multiset(ready) == multiset(ready[..j]) + multiset(ready[j..]);
      assert ready[..j][i] in multiset(ready[..j]) && ready[j..][0] in multiset(ready[j..]);
      assert multiset(ready)[ready[j]] <= 1;
    }
  }

  lemma WhoIsReady(order: seq<Action>, needed: map<Action, int>, needed': map<Action, int>, place: Places,
      ready: seq<Action>)
    requires OrderSide(order, needed, place) && JustReady(needed, needed', ready)
    requires forall b :: b in ready ==> b in needed
    ensures NoDup(ready)
    ensures forall b :: b in ready <==> At(place, b, Waiting) && b in needed' && needed'[b] == 0
  {
    forall b ensures b in ready <==> At(place, b, Waiting) && b in needed' && needed'[b] == 0 {
      assert OrderAt(order, needed, place, b);
      assert b in ready <==> multiset(ready)[b] > 0;
    }
    forall b ensures multiset(ready)[b] <= 1 {
      assert b !in ready ==> multiset(ready)[b] == 0;
    }
    OnceEach(ready);
  }

  lemma DrainOrder(order: seq<Action>, needed: map<Action, int>, needed': map<Action, int>, place: Places,
      ready: seq<Action>, i: nat)
    requires OrderSide(order, needed, place) && JustReady(needed, needed', ready)
    requires forall b :: b in ready <==> At(place, b, Waiting) && b in needed' && needed'[b] == 0
    requires i < |order| && At(place, order[i], InCommitted) && NoDup(order)
    ensures OrderSide(WithoutAt(order, i), needed', DrainPlaces(place, order[i], ready))
  {
    var a, left := order[i], WithoutAt(order, i);
    forall b ensures OrderAt(left, needed', DrainPlaces(place, a, ready), b) {
      assert OrderAt(order, needed, place, b);
      InWithout(order, i, b);
    }
  }

  lemma DrainQueues(p: Part, ready: seq<Action>)
    requires QueueSide(p.input, p.committed, p.pc, p.place) && p.pc == Loop && p.committed != []
    requires NoDup(ready) && forall b :: b in ready ==> At(p.place, b, Waiting)
    requires forall b :: b in ready <==> At(p.place, b, Waiting) && b in ready
    ensures QueueSide(p.input, p.committed[1..], Serve(ready), DrainPlaces(p.place, p.committed[0], ready))
  {
    var a := p.committed[0];
    var place' := DrainPlaces(p.place, a, ready);
    HeadLeaves(p.committed, p.place, InCommitted, Released);
    hide NoDup;
    assert Lists(p.committed[1..], place', InCommitted);
    assert Lists(ready, place', Ready) by {
      forall b ensures b in ready <==> At(place', b, Ready) {
        assert b in Todo(p.pc) <==> At(p.place, b, Ready);
      }
    }
  }

  lemma OrderNoDup(order: seq<Action>)
    requires WfOrder(order)
    ensures NoDup(order)
  {
    forall i, j | 0 <= i < j < |order| ensures order[i] != order[j] {
      assert order[i].keys[0] in order[i].keys;
    }
  }

  lemma SeparatePlaces(place: Places, place': Places)
    requires Separate(place) && place'.Keys == place.Keys
    ensures Separate(place')
  {
    assert forall a :: a in place' <==> a in place;
  }

  lemma DrainKeeps(p: Part)
    requires PartInv(p) && p.pc == Loop && p.committed != []
    ensures CanDrain(p) && PartInv(Drain(p)) && Drain(p).pc.Serve?
    ensures Drain(p).place == DrainPlaces(p.place, p.committed[0], Drain(p).pc.todo)
    ensures At(p.place, p.committed[0], InCommitted)
    ensures forall b :: b in Drain(p).pc.todo ==> At(p.place, b, Waiting)
  {
    hide Separate, LockSide, QueueSide, OrderSide, Wake, ReleaseKeys, NoDup, CanWake, HasTid, WithoutAt, JustReady;
    DrainNeverFails(p);
    var a := p.committed[0];
    var i := PositionOf(p.order, a);
    CommittedHead(p, i);
    DrainLocks(p.table, p.needed, p.order, i);
    var promoted := ReleaseKeys(p.table, a.keys, a.tid).1;
    var (needed', ready) := Wake(p.needed, promoted);
    ReadyAreNeeded(p.needed, promoted);
    WhoIsReady(p.order, p.needed, needed', p.place, ready);
    DrainOrder(p.order, p.needed, needed', p.place, ready, i);
    DrainQueues(p, ready);
    SeparatePlaces(p.place, DrainPlaces(p.place, a, ready));
  }

  lemma CommittedHead(p: Part, i: nat)
    requires PartInv(p) && p.committed != [] && i < |p.order| && p.order[i] == p.committed[0]
    ensures At(p.place, p.committed[0], InCommitted) && NoDup(p.order)
    ensures Runnable(p.order[..i], p.order[i]) && NoDup(p.order[i].keys)
  {
    hide TableIs, TableInv, Accounted, OrderSide, Runnable;
    assert p.committed[0] in p.committed;
    assert At(p.place, p.committed[0], InCommitted);
    OrderNoDup(p.order);
    ReadyIffRunnable(p, i);
  }

  lemma {:induction false} ReadyAreNeeded<A>(needed: map<A, int>, promoted: seq<A>)
    requires forall i :: 0 <= i < |promoted| ==> promoted[i] in needed
    ensures forall b :: b in Wake(needed, promoted).1 ==> b in needed
    decreases |promoted|
  {
    if promoted != [] {
      ReadyAreNeeded(needed[promoted[0] := needed[promoted[0]] - 1], promoted[1..]);
    }
  }
}
