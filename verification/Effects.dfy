/** What the bodies of the actions do to the data, read off the steps of a run alone: what a
    body returns reaches the store; every effect that is committed comes from a body that ran
    to its end on the store of that moment; and in the serial history every action finds, and
    the last state holds, what the body of the last writer returned. */
module ProtocolEffects {
  import opened KeyWrappers
  import opened LockTables
  import opened LockOrder
  import opened Sequences
  import opened Partitions
  import opened Transactions
  import opened SerialData
  import opened Protocol
  import opened ProtocolRuns
  import opened ProtocolHistory

  // ---------------------------------------------------------------------------
  // One body
  // ---------------------------------------------------------------------------

  lemma BodyIsPut(f: Body, s: Sys, p: nat, partial: map<Key, int>, err: bool)
    requires Enabled(s, RunBody(p, partial, err))
    ensures s.parts[p].pc.a.tid in s.txs
    ensures Apply(f, s, RunBody(p, partial, err)).data.store
         == Put(s.data.store, BodyEffect(f, s, s.parts[p].pc.a, partial, err))
  {
    hide BodyEffect, Put, EndExec, Before;
  }

  lemma BodyEffectIs(f: Body, s: Sys, a: Action, partial: map<Key, int>, err: bool)
    requires a.tid in s.txs
    ensures var e := BodyEffect(f, s, a, partial, err);
            var result := f(a, map k: Key | k in a.keys :: Read(s.data.store, Item(a.part, k)));
            && e.a == a
            && (forall k :: k in e.writes ==> k in a.keys && !a.readOnly)
            && (!err && !s.txs[a.tid].aborted ==>
                  && (forall k :: k in e.writes <==> k in a.keys && !a.readOnly && k in result)
                  && (forall k :: k in e.writes ==> e.writes[k] == result[k]))
  {
    hide Read;
    assert View(s.data.store, a) == map k: Key | k in a.keys :: Read(s.data.store, Item(a.part, k));
  }

  /** The body of an action reads the current value of every key that the action has locked.
      If it runs to its end in a transaction that is not aborted, the store then holds what it
      returned for the keys that are locked exclusively, and nothing else changes; a body that
      fails or gives up changes nothing beyond these keys. */
  lemma BodyReachesStore(f: Body, s: Sys, p: nat, partial: map<Key, int>, err: bool)
    requires Enabled(s, RunBody(p, partial, err))
    ensures var a, s' := s.parts[p].pc.a, Apply(f, s, RunBody(p, partial, err));
            var result := f(a, map k: Key | k in a.keys :: Read(s.data.store, Item(a.part, k)));
            && (!err && !s.txs[a.tid].aborted && !a.readOnly ==>
                  forall k: Key :: k in a.keys && k in result ==> Read(s'.data.store, Item(a.part, k)) == result[k])
            && (!err && !s.txs[a.tid].aborted ==>
                  forall k: Key :: k !in result ==>
                    Read(s'.data.store, Item(a.part, k)) == Read(s.data.store, Item(a.part, k)))
            && (forall x: Item :: x.part != a.part || x.key !in a.keys || a.readOnly ==>
                  Read(s'.data.store, x) == Read(s.data.store, x))
  {
    hide Apply, BodyEffect, Put, Read;
    var a := s.parts[p].pc.a;
    var e := BodyEffect(f, s, a, partial, err);
    BodyIsPut(f, s, p, partial, err);
    BodyEffectIs(f, s, a, partial, err);
    forall x: Item ensures Read(Put(s.data.store, e), x)
        == if a.part == x.part && x.key in e.writes then e.writes[x.key] else Read(s.data.store, x) {
      ReadPut(s.data.store, e, x);
    }
  }

  // ---------------------------------------------------------------------------
  // Where the effects come from
  // ---------------------------------------------------------------------------

  // At step i the body of this action ran, and what it saw is the store of that moment
  ghost predicate RanAt(states: seq<Sys>, steps: seq<Step>, i: nat, e: Effect) {
    && i < |steps| < |states| && steps[i].RunBody? && steps[i].p in states[i].parts
    && var pc := states[i].parts[steps[i].p].pc;
    && pc.Exec? && pc.a == e.a
    && (e.ok <==> !steps[i].err && !IsAborted(states[i], e.a.tid))
    && (forall k :: k in e.view <==> k in e.a.keys)
    && (forall k :: k in e.view ==> e.view[k] == Read(states[i].data.store, Item(e.a.part, k)))
  }

  ghost predicate HasRun(states: seq<Sys>, steps: seq<Step>, n: nat, e: Effect) {
    exists i :: 0 <= i < n && RanAt(states, steps, i, e)
  }

  ghost predicate LogHasRun(states: seq<Sys>, steps: seq<Step>, n: nat, log: Log) {
    forall j :: 0 <= j < |log| ==> HasRun(states, steps, n, log[j])
  }

  ghost predicate DataHasRun(states: seq<Sys>, steps: seq<Step>, n: nat, d: Data) {
    && (forall u :: u in d.logs ==> LogHasRun(states, steps, n, d.logs[u]))
    && (forall c :: 0 <= c < |d.committed| ==> LogHasRun(states, steps, n, d.committed[c].log))
  }

  lemma StillHasRun(states: seq<Sys>, steps: seq<Step>, n: nat, d: Data)
    requires DataHasRun(states, steps, n, d)
    ensures DataHasRun(states, steps, n + 1, d)
  {
    forall log | LogHasRun(states, steps, n, log) ensures LogHasRun(states, steps, n + 1, log) {
      forall j | 0 <= j < |log| ensures HasRun(states, steps, n + 1, log[j]) {
        assert HasRun(states, steps, n, log[j]);
      }
    }
  }

  lemma BodyRuns(f: Body, states: seq<Sys>, steps: seq<Step>, n: nat)
    requires n < |steps| < |states| && Enabled(states[n], steps[n]) && steps[n].RunBody?
    ensures var s, step := states[n], steps[n];
            var a := s.parts[step.p].pc.a;
            a.tid in s.txs && RanAt(states, steps, n, BodyEffect(f, s, a, step.partial, step.err))
  {
  }

  lemma LogGrowsRun(states: seq<Sys>, steps: seq<Step>, n: nat, log: Log, e: Effect)
    requires LogHasRun(states, steps, n, log) && HasRun(states, steps, n, e)
    ensures LogHasRun(states, steps, n, log + [e])
  {
  }

  lemma StepHasRun(f: Body, init: Store, states: seq<Sys>, steps: seq<Step>, n: nat)
    requires n < |steps| < |states| && SysInv(f, init, states[n]) && Enabled(states[n], steps[n])
    requires DataHasRun(states, steps, n + 1, states[n].data)
    ensures DataHasRun(states, steps, n + 1, Apply(f, states[n], steps[n]).data)
  {
    hide SysInv, WfActions, LogHasRun, RanAt, HasRun, BodyEffect;
    var s, step := states[n], steps[n];
    if IsQuiet(step) {
      QuietData(f, init, s, step);
    } else if step.RunBody? {
      var a := s.parts[step.p].pc.a;
      BodyRuns(f, states, steps, n);
      assert HasRun(states, steps, n + 1, BodyEffect(f, s, a, step.partial, step.err)) by {
        NowHasRun(states, steps, n, BodyEffect(f, s, a, step.partial, step.err));
      }
      LogGrowsRun(states, steps, n + 1, s.data.logs[a.tid], BodyEffect(f, s, a, step.partial, step.err));
    } else if step.Begin? {
      EmptyHasRun(states, steps, n + 1);
    }
  }

  lemma NowHasRun(states: seq<Sys>, steps: seq<Step>, n: nat, e: Effect)
    requires RanAt(states, steps, n, e)
    ensures HasRun(states, steps, n + 1, e)
  {
  }

  lemma EmptyHasRun(states: seq<Sys>, steps: seq<Step>, n: nat)
    ensures LogHasRun(states, steps, n, [])
  {
  }

  lemma {:induction false} LogsHaveRun(
      f: Body, init: Store, partitions: set<nat>, states: seq<Sys>, steps: seq<Step>, n: nat)
    requires IsRun(f, init, partitions, states, steps) && n <= |steps|
    ensures DataHasRun(states, steps, n, states[n].data)
  {
    hide SysInv, Enabled, Apply, Next, DataHasRun;
    if n == 0 {
      FirstHasRun(states, steps, partitions, init);
    } else {
      LogsHaveRun(f, init, partitions, states, steps, n - 1);
      RunIsSafe(f, init, partitions, states, steps, n - 1);
      StillHasRun(states, steps, n - 1, states[n - 1].data);
      StepHasRun(f, init, states, steps, n - 1);
    }
  }

  lemma FirstHasRun(states: seq<Sys>, steps: seq<Step>, partitions: set<nat>, init: Store)
    ensures DataHasRun(states, steps, 0, Init(partitions, init).data)
  {
  }

  // ---------------------------------------------------------------------------
  // The serial history as one list of effects
  // ---------------------------------------------------------------------------

  function Flat(committed: seq<Commit>): Log {
    if committed == [] then []
    else Flat(committed[..|committed| - 1]) + committed[|committed| - 1].log
  }

  lemma {:induction false} ReplayConcat(s: Store, x: Log, y: Log)
    ensures Replay(s, x + y) == Replay(Replay(s, x), y)
    ensures SeenFrom(s, x + y) <==> SeenFrom(s, x) && SeenFrom(Replay(s, x), y)
    decreases |x|
  {
    if x == [] {
      assert x + y == y;
    } else {
      assert (x + y)[1..] == x[1..] + y;
      ReplayConcat(Put(s, x[0]), x[1..], y);
    }
  }

  lemma {:induction false} FlatIsSerial(f: Body, init: Store, committed: seq<Commit>)
    requires SerialRun(f, init, committed)
    ensures Replay(init, Flat(committed)) == Base(init, committed)
    ensures SeenFrom(init, Flat(committed)) && AllRan(f, Flat(committed))
    decreases |committed|
  {
    hide Ran, SeenFrom, Replay;
    if committed == [] {
      assert SeenFrom(init, []) && Replay(init, []) == init by { EmptyLog(init); }
    } else {
      var last := |committed| - 1;
      FlatIsSerial(f, init, committed[..last]);
      ReplayConcat(init, Flat(committed[..last]), committed[last].log);
    }
  }

  lemma EmptyLog(s: Store)
    ensures SeenFrom(s, []) && Replay(s, []) == s
  {
  }

  // The body of this action returned something for an item that it had locked exclusively
  ghost predicate Writes(f: Body, e: Effect, x: Item) {
    e.a.part == x.part && x.key in e.a.keys && !e.a.readOnly && x.key in f(e.a, e.view)
  }

  // What the last writer of an item in a history has returned for it, or else its first value
  ghost predicate LastWritten(f: Body, init: Store, history: Log, x: Item, v: int) {
    || (exists i :: 0 <= i < |history| && LastWriter(f, history, i, x) && f(history[i].a, history[i].view)[x.key] == v)
    || ((forall i :: 0 <= i < |history| ==> !Writes(f, history[i], x)) && v == if x in init then init[x] else 0)
  }

  ghost predicate LastWriter(f: Body, history: Log, i: nat, x: Item) {
    i < |history| && Writes(f, history[i], x) && forall j :: i < j < |history| ==> !Writes(f, history[j], x)
  }

  lemma WritesAre(f: Body, e: Effect, x: Item)
    requires Ran(f, e)
    ensures e.a.part == x.part && x.key in e.writes <==> Writes(f, e, x)
    ensures Writes(f, e, x) ==> e.writes[x.key] == f(e.a, e.view)[x.key]
  {
  }

  lemma LastWrittenAppend(f: Body, init: Store, history: Log, e: Effect, x: Item, v: int)
    requires if Writes(f, e, x) then v == f(e.a, e.view)[x.key] else LastWritten(f, init, history, x, v)
    ensures LastWritten(f, init, history + [e], x, v)
  {
    var both := history + [e];
    assert both[|history|] == e;
    assert forall i :: 0 <= i < |history| ==> both[i] == history[i];
    if Writes(f, e, x) {
      assert LastWriter(f, both, |history|, x);
    } else if exists i ::
        0 <= i < |history| && LastWriter(f, history, i, x) && f(history[i].a, history[i].view)[x.key] == v {
      var i :| 0 <= i < |history| && LastWriter(f, history, i, x) && f(history[i].a, history[i].view)[x.key] == v;
      assert LastWriter(f, both, i, x);
    }
  }

  lemma {:induction false} ReplayIsLastWritten(f: Body, init: Store, history: Log, x: Item)
    requires forall i :: 0 <= i < |history| ==> Ran(f, history[i])
    ensures LastWritten(f, init, history, x, Read(Replay(init, history), x))
    decreases |history|
  {
    hide Ran, Writes, Replay, Put;
    if history == [] {
      assert Replay(init, history) == init by { EmptyLog(init); }
    } else {
      var before, e := history[..|history| - 1], history[|history| - 1];
      assert history == before + [e];
      ReplayIsLastWritten(f, init, before, x);
      ReplayAppend(init, before, e);
      ReadPut(Replay(init, before), e, x);
      WritesAre(f, e, x);
      LastWrittenAppend(f, init, before, e, x, Read(Replay(init, history), x));
    }
  }

  lemma {:induction false} SeenAt(s: Store, log: Log, j: nat)
    requires SeenFrom(s, log) && j < |log|
    ensures log[j].view == View(Replay(s, log[..j]), log[j].a)
    decreases |log|
  {
    if j > 0 {
      SeenAt(Put(s, log[0]), log[1..], j - 1);
      assert log[..j][1..] == log[1..][..j - 1];
    }
  }

  /** Serializability without any auxiliary notion of a replay.  Take the effects of the
      committed transactions in commit order: each comes from a body that ran to its end at
      some step of the run and read the store of that step; yet what it saw of any item is
      what the last writer before it in this list has returned, or the initial value; and when
      all transactions are decided, the store holds for each item what the last writer of the
      whole list has returned, or the initial value. */
  lemma EveryReadIsSerial(
      f: Body, init: Store, partitions: set<nat>, states: seq<Sys>, steps: seq<Step>, n: nat)
    requires IsRun(f, init, partitions, states, steps) && n <= |steps|
    ensures var history := Flat(states[n].data.committed);
            && (forall j :: 0 <= j < |history| ==>
                  history[j].ok && HasRun(states, steps, n, history[j]))
            && (forall j, k :: 0 <= j < |history| && k in history[j].a.keys ==>
                  && k in history[j].view
                  && LastWritten(f, init, history[..j], Item(history[j].a.part, k), history[j].view[k]))
            && (AllDecided(states[n].txs) ==>
                  forall x :: LastWritten(f, init, history, x, Read(states[n].data.store, x)))
  {
    hide Next, SysInv, AllDecided, Ran, Replay, HasRun, SeenFrom, LastWritten, Tids, ProtocolHistory.AllWhole,
        SerialRun, Base, Read;
    var history := Flat(states[n].data.committed);
    RunIsSerializable(f, init, partitions, states, steps, n);
    FlatIsSerial(f, init, states[n].data.committed);
    LogsHaveRun(f, init, partitions, states, steps, n);
    FlatHasRun(states, steps, n, states[n].data.committed);
    forall j, k | 0 <= j < |history| && k in history[j].a.keys
      ensures k in history[j].view
      ensures LastWritten(f, init, history[..j], Item(history[j].a.part, k), history[j].view[k])
    {
      SeenAt(init, history, j);
      ReplayIsLastWritten(f, init, history[..j], Item(history[j].a.part, k));
    }
    if AllDecided(states[n].txs) {
      forall x ensures LastWritten(f, init, history, x, Read(states[n].data.store, x)) {
        ReplayIsLastWritten(f, init, history, x);
      }
    }
  }

  lemma {:induction false} FlatHasRun(states: seq<Sys>, steps: seq<Step>, n: nat, committed: seq<Commit>)
    requires forall c :: 0 <= c < |committed| ==> LogHasRun(states, steps, n, committed[c].log)
    ensures LogHasRun(states, steps, n, Flat(committed))
    decreases |committed|
  {
    hide HasRun;
    if committed != [] {
      FlatHasRun(states, steps, n, committed[..|committed| - 1]);
    }
  }
}
