/** The protocol is not vacuous: a transaction that runs alone goes all the way, from its
    first action's enqueueing to the release of its locks. */
module ProtocolProgress {
  import opened KeyWrappers
  import opened LockTables
  import opened LockOrder
  import opened Sequences
  import opened Partitions
  import opened Transactions
  import opened SerialData
  import opened Protocol
  import opened ProtocolRuns
  import Workers

  function Last(states: seq<Sys>): Sys
    requires states != []
  {
    states[|states| - 1]
  }

  // A run goes on with any step that the code can reach
  lemma GoOn(f: Body, init: Store, partitions: set<nat>, states: seq<Sys>, steps: seq<Step>, step: Step)
    returns (states': seq<Sys>, steps': seq<Step>)
    requires IsRun(f, init, partitions, states, steps) && Guard(Last(states), step)
    ensures IsRun(f, init, partitions, states', steps') && |states'| == |states| + 1
    ensures steps' == steps + [step]
    ensures Enabled(Last(states), step) && Last(states') == Apply(f, Last(states), step)
    ensures SysInv(f, init, Last(states'))
  {
    hide SysInv, Guard, Asserts, Apply;
    RunIsSafe(f, init, partitions, states, steps, |steps|);
    StepKeeps(f, init, Last(states), step);
    states', steps' := states + [Apply(f, Last(states), step)], steps + [step];
    assert Next(f, Last(states), step, Last(states'));
    forall i | 0 <= i < |steps'| ensures Next(f, states'[i], steps'[i], states'[i + 1]) {
      if i < |steps| { assert Next(f, states[i], steps[i], states[i + 1]); }
    }
  }

  // One partition, one transaction with one action
  ghost predicate Shape(s: Sys, a: Action, pc: Pc, input: seq<Action>, order: seq<Action>, committed: seq<Action>) {
    && s.parts.Keys == {a.part} && s.parts[a.part].pc == pc && s.parts[a.part].input == input
    && s.parts[a.part].order == order && s.parts[a.part].committed == committed
  }

  ghost predicate Only(s: Sys, a: Action, t: Tx) { s.txs == map[a.tid := t] }

  lemma OneAction(a: Action)
    requires a.keys != [] && NoDup(a.keys)
    ensures WfActions(a.tid, [a]) && Elements([a]) == {a}
  {
  }

  lemma Solo1(f: Body, init: Store, a: Action) returns (states: seq<Sys>, steps: seq<Step>)
    requires a.keys != [] && NoDup(a.keys)
    ensures IsRun(f, init, {a.part}, states, steps) && SysInv(f, init, Last(states))
    ensures Shape(Last(states), a, Input, [a], [], [])
    ensures Only(Last(states), a, Tx(0, 1, false, [a], [], [], Gathering, Undecided, {a}))
  {
    hide SysInv, Asserts;
    OneAction(a);
    var s0 := Init({a.part}, init);
    states, steps := [s0], [];
    states, steps := GoOn(f, init, {a.part}, states, steps, Begin(a.tid, 0, [a]));
    assert Shape(Last(states), a, Loop, [], [], []);
    assert Only(Last(states), a, Tx(0, 1, false, [a], [a], [], Gathering, Undecided, {a}));
    states, steps := GoOn(f, init, {a.part}, states, steps, Send(a.tid));
    assert [a][1..] == [] && [] + [a] == [a];
    assert Shape(Last(states), a, Loop, [a], [], []);
    states, steps := GoOn(f, init, {a.part}, states, steps, ToInput(a.part));
  }

  lemma TakesAll(f: Body, init: Store, s: Sys, a: Action)
    requires SysInv(f, init, s) && Shape(s, a, Input, [a], [], [])
    ensures TakeInput(s.parts[a.part]).pc == Serve([a])
  {
    hide PartInv, TxInv, DataInv, Linked, Logged;
    Workers.TakenIsReady(s.parts[a.part]);
  }

  lemma SoloTakes(f: Body, init: Store, a: Action) returns (states: seq<Sys>, steps: seq<Step>)
    requires a.keys != [] && NoDup(a.keys)
    ensures IsRun(f, init, {a.part}, states, steps) && SysInv(f, init, Last(states))
    ensures Shape(Last(states), a, Serve([a]), [], [a], [])
    ensures Only(Last(states), a, Tx(0, 1, false, [a], [], [], Gathering, Undecided, {a}))
  {
    hide SysInv, Asserts, AcquireAll, Enabled;
    states, steps := Solo1(f, init, a);
    TakesAll(f, init, Last(states), a);
    states, steps := GoOn(f, init, {a.part}, states, steps, Take(a.part));
    assert [a][1..] == [] && [] + [a] == [a];
  }

  lemma Solo2(f: Body, init: Store, a: Action) returns (states: seq<Sys>, steps: seq<Step>)
    requires a.keys != [] && NoDup(a.keys)
    ensures IsRun(f, init, {a.part}, states, steps) && SysInv(f, init, Last(states))
    ensures Shape(Last(states), a, Exec(a, []), [], [a], [])
    ensures Only(Last(states), a, Tx(0, 1, false, [a], [], [], Gathering, Undecided, {a}))
    ensures Reached(Last(states), ServedNow(a))
  {
    hide SysInv, Asserts, AcquireAll, Enabled;
    states, steps := SoloTakes(f, init, a);
    states, steps := GoOn(f, init, {a.part}, states, steps, ServeOne(a.part));
  }

  lemma Solo3(f: Body, init: Store, a: Action) returns (states: seq<Sys>, steps: seq<Step>)
    requires a.keys != [] && NoDup(a.keys)
    ensures IsRun(f, init, {a.part}, states, steps) && SysInv(f, init, Last(states))
    ensures Shape(Last(states), a, Serve([]), [], [a], [])
    ensures Only(Last(states), a, Tx(0, 0, false, [a], [], [], Running, Undecided, {}))
  {
    hide SysInv, Asserts, Enabled, ExecData, Reached;
    states, steps := Solo2(f, init, a);
    states, steps := GoOn(f, init, {a.part}, states, steps, RunBody(a.part, map[], false));
    assert Shape(Last(states), a, Post(a, false, []), [], [a], []);
    assert Only(Last(states), a, Tx(0, 1, false, [a], [], [], Gathering, Undecided, {a}));
    states, steps := GoOn(f, init, {a.part}, states, steps, PostAction(a.part));
    assert {a} - {a} == {};
  }

  lemma Solo4(f: Body, init: Store, a: Action) returns (states: seq<Sys>, steps: seq<Step>)
    requires a.keys != [] && NoDup(a.keys)
    ensures IsRun(f, init, {a.part}, states, steps) && SysInv(f, init, Last(states))
    ensures Shape(Last(states), a, Loop, [], [a], [a])
    ensures Only(Last(states), a, Tx(0, 0, false, [a], [], [], Notifying, Committed, {}))
  {
    hide SysInv, Asserts, Enabled, TerminalData;
    states, steps := Solo3(f, init, a);
    states, steps := GoOn(f, init, {a.part}, states, steps, ServeEnd(a.part));
    assert Shape(Last(states), a, Loop, [], [a], []);
    states, steps := GoOn(f, init, {a.part}, states, steps, Terminal(a.tid, true, false, 0));
    assert Only(Last(states), a, Tx(0, 0, false, [a], [], [a], Notifying, Committed, {}));
    states, steps := GoOn(f, init, {a.part}, states, steps, SendHome(a.tid));
    assert [a][1..] == [] && [] + [a] == [a];
  }

  /** There is a run, whatever the action is, in which it is served, its transaction commits,
      and its locks are released. */
  lemma SoloRun(f: Body, init: Store, a: Action) returns (states: seq<Sys>, steps: seq<Step>)
    requires a.keys != [] && NoDup(a.keys)
    ensures IsRun(f, init, {a.part}, states, steps)
    ensures Reached(Last(states), ServedNow(a)) && Reached(Last(states), Freed(a))
    ensures a.tid in Last(states).txs && Last(states).txs[a.tid].outcome == Committed
  {
    hide SysInv, Asserts, Enabled, Drain, CanDrain;
    states, steps := Solo4(f, init, a);
    ghost var s := Last(states);
    Drains(f, init, s, a);
    states, steps := GoOn(f, init, {a.part}, states, steps, DrainOne(a.part));
  }

  lemma Drains(f: Body, init: Store, s: Sys, a: Action)
    requires SysInv(f, init, s) && Shape(s, a, Loop, [], [a], [a])
    ensures CanDrain(s.parts[a.part]) && At(Drain(s.parts[a.part]).place, a, Released)
  {
    hide PartInv, TxInv, DataInv, Linked, Logged, CanDrain, Drain;
    DrainKeeps(s.parts[a.part]);
  }

  // ---------------------------------------------------------------------------
  // The worker program as a run
  // ---------------------------------------------------------------------------

  // The steps in which a worker serves one ready action when nobody interferes
  function ServiceSteps(p: nat, aborted: bool, partial: map<Key, int>, err: bool): seq<Step> {
    [ServeOne(p)]
    + (if aborted then [] else if err then [RunBody(p, partial, err), MarkAbort(p)] else [RunBody(p, partial, err)])
    + [PostAction(p)]
  }

  // The partition after a step of its worker, and whether the transaction is aborted then
  ghost predicate Gives(s: Sys, p: nat, a: Action, part: Part, aborted: bool) {
    p in s.parts && s.parts[p] == part && a.tid in s.txs && (IsAborted(s, a.tid) <==> aborted)
  }

  lemma ServeGives(f: Body, s: Sys, p: nat)
    requires Enabled(s, ServeOne(p))
    ensures var a := s.parts[p].pc.todo[0]; var aborted := IsAborted(s, a.tid);
            Gives(Apply(f, s, ServeOne(p)), p, a, ServeNext(s.parts[p], aborted), aborted)
  {
  }

  lemma BodyGives(f: Body, s: Sys, p: nat, partial: map<Key, int>, err: bool)
    requires Enabled(s, RunBody(p, partial, err))
    ensures var a := s.parts[p].pc.a;
            Gives(Apply(f, s, RunBody(p, partial, err)), p, a, EndExec(s.parts[p], err), IsAborted(s, a.tid))
  {
    hide ExecData, BodyEffect;
  }

  lemma MarkGives(f: Body, s: Sys, p: nat)
    requires Enabled(s, MarkAbort(p))
    ensures Gives(Apply(f, s, MarkAbort(p)), p, s.parts[p].pc.a, AbortSet(s.parts[p]), true)
  {
  }

  lemma PostGives(f: Body, s: Sys, p: nat)
    requires Enabled(s, PostAction(p))
    ensures var a := s.parts[p].pc.a;
            Gives(Apply(f, s, PostAction(p)), p, a, AfterPost(s.parts[p]), IsAborted(s, a.tid))
  {
  }

  // Up to the post: the worker starts, runs the body if it may, and asks for the abort if it must
  lemma ServeToPost(
      f: Body, init: Store, partitions: set<nat>, states: seq<Sys>, steps: seq<Step>,
      p: nat, partial: map<Key, int>, err: bool) returns (states': seq<Sys>, steps': seq<Step>)
    requires IsRun(f, init, partitions, states, steps) && Guard(Last(states), ServeOne(p))
    ensures IsRun(f, init, partitions, states', steps')
    ensures var s, a := Last(states), Last(states).parts[p].pc.todo[0];
            var aborted := IsAborted(s, a.tid);
            && steps' + [PostAction(p)] == steps + ServiceSteps(p, aborted, partial, err)
            && Gives(Last(states'), p, a, ServedUpToPost(s.parts[p], aborted, err), aborted || err)
  {
    hide SysInv, Apply, Enabled, IsAborted, WfActions, SentToParts;
    var s := Last(states);
    states', steps' := GoOn(f, init, partitions, states, steps, ServeOne(p));
    ServeGives(f, s, p);
    if !IsAborted(s, s.parts[p].pc.todo[0].tid) {
      ghost var s1 := Last(states');
      states', steps' := GoOn(f, init, partitions, states', steps', RunBody(p, partial, err));
      BodyGives(f, s1, p, partial, err);
      if err {
        ghost var s2 := Last(states');
        states', steps' := GoOn(f, init, partitions, states', steps', MarkAbort(p));
        MarkGives(f, s2, p);
      }
    }
  }

  function ServedUpToPost(part: Part, aborted: bool, err: bool): Part
    requires part.pc.Serve? && part.pc.todo != []
  {
    var started := ServeNext(part, aborted);
    AbortSet(if aborted then started else EndExec(started, err))
  }

  /** What the worker program does with the head of the ready list is a run of the transition
      system: the body runs unless the transaction has been aborted, the abort is asked for
      exactly if the body fails, and then the action posts.  Afterwards the transaction is
      aborted exactly if it was, or the body has failed. */
  lemma ServiceIsRun(
      f: Body, init: Store, partitions: set<nat>, states: seq<Sys>, steps: seq<Step>,
      p: nat, partial: map<Key, int>, err: bool) returns (states': seq<Sys>, steps': seq<Step>)
    requires IsRun(f, init, partitions, states, steps) && Guard(Last(states), ServeOne(p))
    ensures IsRun(f, init, partitions, states', steps')
    ensures var s, s', a := Last(states), Last(states'), Last(states).parts[p].pc.todo[0];
            var aborted := IsAborted(s, a.tid);
            && steps' == steps + ServiceSteps(p, aborted, partial, err)
            && p in s'.parts && s'.parts[p] == Workers.ServeHead(s.parts[p], aborted, !aborted && err)
            && a.tid in s'.txs && (IsAborted(s', a.tid) <==> aborted || err)
  {
    hide SysInv, Apply, Enabled, IsAborted, WfActions, SentToParts, ServiceSteps;
    states', steps' := ServeToPost(f, init, partitions, states, steps, p, partial, err);
    ghost var posting := Last(states');
    states', steps' := GoOn(f, init, partitions, states', steps', PostAction(p));
    PostGives(f, posting, p);
  }
}
