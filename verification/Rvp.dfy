/** Rendezvous points as objects: posting, the hand-over from a midway rendezvous point to the
    next one, and the terminal one that commits or aborts and sends the actions home. */
module Rvps {
  import opened LockOrder
  import opened Sequences
  import opened LockTables
  import opened LogicalLocks
  import opened Transactions
  import opened Countdowns
  import Partitions

  datatype Decision = AdUndecided | AdAbort

  // ---------------------------------------------------------------------------
  // The queues of a partition
  // ---------------------------------------------------------------------------

  class PartitionQueues {
    const id: nat
    var input: seq<Action>
    var committed: seq<Action>

    constructor (id: nat)
      ensures this.id == id && input == [] && committed == []
    {
      this.id := id;
      input, committed := [], [];
    }

    method Enqueue(a: Action)
      modifies this
      ensures input == old(input) + [a] && committed == old(committed)
    {
      input := input + [a];
    }

    // A pop that was woken up with nothing in the queue returns nothing
    method Dequeue() returns (head: seq<Action>)
      modifies this
      ensures head + input == old(input) && |head| <= 1 && (head == [] <==> old(input) == [])
      ensures committed == old(committed)
    {
      head := if input == [] then [] else [input[0]];
      input := input[|head|..];
    }

    method EnqueueCommit(a: Action)
      requires a.part == id
      modifies this`committed
      ensures committed == old(committed) + [a]
    {
      committed := committed + [a];
    }

    method HasCommitted() returns (has: bool)
      ensures has <==> committed != []
    {
      has := committed != [];
    }

    method DequeueCommit() returns (a: Action)
      requires committed != []
      modifies this
      ensures [a] + committed == old(committed) && input == old(input)
    {
      a := committed[0];
      committed := committed[1..];
    }
  }

  function IfHome(a: Action, p: nat): seq<Action> { if a.part == p then [a] else [] }

  // The actions of a list that belong to one partition, in their order
  function HomeOf(actions: seq<Action>, p: nat): seq<Action> {
    if actions == [] then []
    else
      var last := |actions| - 1;
      HomeOf(actions[..last], p) + IfHome(actions[last], p)
  }

  lemma HomeOfNone(actions: seq<Action>)
    requires actions == []
    ensures forall p :: HomeOf(actions, p) == []
  {
  }

  lemma HomeOfNext(actions: seq<Action>, i: nat, p: nat)
    requires i < |actions|
    ensures HomeOf(actions[..i + 1], p) == HomeOf(actions[..i], p) + IfHome(actions[i], p)
  {
    assert actions[..i + 1][..i] == actions[..i];
  }

  // The same notifications as single steps of the transition system
  function Deliver(part: Partitions.Part, p: nat, actions: seq<Action>): Partitions.Part
    decreases |actions|
  {
    if actions == [] then part
    else if actions[0].part == p then Deliver(Partitions.EnqueueCommit(part, actions[0]), p, actions[1..])
    else Deliver(part, p, actions[1..])
  }

  lemma {:induction false} HomeOfHead(actions: seq<Action>, p: nat)
    requires actions != []
    ensures HomeOf(actions, p) == IfHome(actions[0], p) + HomeOf(actions[1..], p)
    decreases |actions|
  {
    var last := |actions| - 1;
    if last > 0 {
      hide IfHome;
      HomeOfHead(actions[..last], p);
      assert actions[..last][1..] == actions[1..][..last - 1];
      Assoc(IfHome(actions[0], p), HomeOf(actions[1..][..last - 1], p), IfHome(actions[last], p));
    } else {
      assert actions[..0] == [];
    }
  }

  /** The notification loop and the single notifications of the transition system leave the
      same committed queue. */
  lemma {:induction false} DeliverIsHomeOf(part: Partitions.Part, p: nat, actions: seq<Action>)
    ensures Deliver(part, p, actions).committed == part.committed + HomeOf(actions, p)
    decreases |actions|
  {
    if actions != [] {
      HomeOfHead(actions, p);
      if actions[0].part == p {
        DeliverIsHomeOf(Partitions.EnqueueCommit(part, actions[0]), p, actions[1..]);
        Assoc(part.committed, [actions[0]], HomeOf(actions[1..], p));
      } else {
        DeliverIsHomeOf(part, p, actions[1..]);
      }
    }
  }

  /** The order of a list is kept: what goes home to a partition from two lists, one after the
      other, goes home in that order; and a single action goes home to its partition alone. */
  lemma {:induction false} HomeOfConcat(xs: seq<Action>, ys: seq<Action>, p: nat)
    ensures HomeOf(xs + ys, p) == HomeOf(xs, p) + HomeOf(ys, p)
    decreases |xs|
  {
    hide HomeOf, IfHome;
    if xs == [] {
      HomeOfNone(xs);
      assert xs + ys == ys;
    } else {
      HomeOfHead(xs, p);
      HomeOfHead(xs + ys, p);
      assert (xs + ys)[1..] == xs[1..] + ys;
      HomeOfConcat(xs[1..], ys, p);
      Assoc(IfHome(xs[0], p), HomeOf(xs[1..], p), HomeOf(ys, p));
    }
  }

  lemma HomeOfOne(a: Action, p: nat)
    ensures HomeOf([a], p) == if a.part == p then [a] else []
  {
    HomeOfNone([a][..0]);
  }

  /** Every action is delivered to its own partition exactly as often as it is listed, and to
      no other. */
  lemma {:induction false} HomeOfCounts(actions: seq<Action>, p: nat, a: Action)
    ensures multiset(HomeOf(actions, p))[a] == if a.part == p then multiset(actions)[a] else 0
    decreases |actions|
  {
    if actions != [] {
      var last := |actions| - 1;
      HomeOfCounts(actions[..last], p, a);
      assert actions == actions[..last] + [actions[last]];
    }
  }

  type PartitionMap = map<nat, PartitionQueues>

  ghost predicate Partitioned(parts: PartitionMap) {
    forall p :: p in parts ==> parts[p].id == p
  }

  ghost predicate HaveHomes(parts: PartitionMap, actions: seq<Action>) {
    forall i :: 0 <= i < |actions| ==> actions[i].part in parts
  }

  // ---------------------------------------------------------------------------
  // Rendezvous points
  // ---------------------------------------------------------------------------

  class Rvp {
    const countdown: Countdown
    var decision: Decision
    var actions: seq<Action>

    // _set() followed by copy_actions()
    constructor (intra: nat, copied: seq<Action>)
      ensures fresh(countdown) && countdown.state == intra * CD_NUMBER
      ensures decision == AdUndecided && actions == copied
    {
      countdown := new Countdown(intra);
      decision := AdUndecided;
      actions := copied;
    }

    method AddAction(a: Action)
      modifies this`actions
      ensures actions == old(actions) + [a]
    {
      actions := actions + [a];
    }

    method AppendActions(list: seq<Action>)
      modifies this`actions
      ensures actions == old(actions) + list
    {
      actions := actions + list;
    }

    method Abort()
      modifies this`decision
      ensures decision == AdAbort
    {
      decision := AdAbort;
    }

    method IsAborted() returns (aborted: bool)
      ensures aborted <==> decision == AdAbort
    {
      aborted := decision == AdAbort;
    }

    // This object as a transaction of the transition system sees it; a countdown that is not
    // waited for says nothing
    ghost predicate Is(t: Tx)
      reads this, countdown
    {
      && actions == t.actions && (decision == AdAbort <==> t.aborted)
      && (t.mode == Gathering ==> countdown.state == t.count * CD_NUMBER)
    }

    /** post() of one action with nobody in between: an error aborts the transaction before it
        counts down, the count goes down by one, and the last one out is told to run. */
    method PostAlone(isError: bool, a: Action, ghost t: Tx) returns (last: bool)
      requires Is(t) && t.mode == Gathering && t.count > 0
      modifies this`decision, countdown
      ensures var t1 := if isError then SetAbort(t) else t;
              && Is(PostOne(t1, a)) && (last <==> PostOne(t1, a).mode == Running)
              && (last ==> countdown.state == 0)
      ensures decision == (if isError then AdAbort else old(decision)) && actions == old(actions)
      ensures countdown.state == old(countdown.state) - CD_NUMBER && (last <==> countdown.state == 0)
    {
      if isError {
        Abort();
      }
      var slipped;
      last, slipped := countdown.Post(false, []);
    }

    /** The start of every midway rendezvous point: the next one takes over all actions, and,
        if this one was aborted, the abort, in which case it is run at once and gets no new
        actions; otherwise it waits for the new ones. */
    method HandOver(next: seq<Action>, intra: nat, ghost t: Tx) returns (nextRvp: Rvp, runNow: bool)
      requires Is(t) && t.mode == Running && t.midways > 0
      requires intra == |next|
      ensures fresh(nextRvp) && fresh(nextRvp.countdown)
      ensures nextRvp.Is(RunMidway(t, next))
      ensures runNow <==> RunMidway(t, next).mode == Running
      ensures runNow <==> decision == AdAbort
      ensures nextRvp.decision == decision && nextRvp.actions == if runNow then actions else actions + next
      ensures nextRvp.countdown.state == intra * CD_NUMBER
    {
      nextRvp := new Rvp(intra, actions);
      runNow := decision == AdAbort;
      if runNow {
        nextRvp.Abort();
        return;
      }
      ghost var carried := actions;
      for i := 0 to |next|
        invariant nextRvp.actions == carried + next[..i]
        invariant nextRvp.decision == AdUndecided && nextRvp.countdown.state == intra * CD_NUMBER
        invariant fresh(nextRvp) && fresh(nextRvp.countdown) && decision != AdAbort
      {
        nextRvp.AddAction(next[i]);
        assert next[..i + 1] == next[..i] + [next[i]];
      }
      assert next[..|next|] == next;
    }
  }

  // The "to flush" queue of the flusher
  class FlushQueue {
    var waiting: seq<TerminalRvp>

    constructor ()
      ensures waiting == []
    {
      waiting := [];
    }
  }

  // What the storage manager answers
  datatype Answers = Answers(abortOk: bool, commitOk: bool, lastLsn: nat)

  class TerminalRvp {
    var decision: Decision
    var actions: seq<Action>
    var lastLsn: nat
    var committedStats: nat
    var abortedStats: nat
    var clientNotified: nat
    var givenBack: bool

    constructor (decision: Decision, actions: seq<Action>)
      ensures this.decision == decision && this.actions == actions && lastLsn == 0
      ensures committedStats == 0 && abortedStats == 0 && clientNotified == 0 && !givenBack
    {
      this.decision := decision;
      this.actions := actions;
      lastLsn, committedStats, abortedStats, clientNotified, givenBack := 0, 0, 0, 0, false;
    }

    // Every action is put on the committed queue of its own partition
    method NotifyPartitions(parts: PartitionMap) returns (n: nat)
      requires Partitioned(parts) && HaveHomes(parts, actions)
      modifies parts.Values`committed
      ensures n == |actions|
      ensures forall p :: p in parts ==> parts[p].committed == old(parts[p].committed) + HomeOf(actions, p)
    {
      hide HomeOf;
      HomeOfNone(actions[..0]);
      for i := 0 to |actions|
        invariant forall p :: p in parts ==> parts[p].committed == old(parts[p].committed) + HomeOf(actions[..i], p)
      {
        ghost var before := map p | p in parts :: parts[p].committed;
        parts[actions[i].part].EnqueueCommit(actions[i]);
        forall p | p in parts ensures parts[p].committed == old(parts[p].committed) + HomeOf(actions[..i + 1], p) {
          assert parts[p].committed == before[p] + IfHome(actions[i], p);
          HomeOfNext(actions, i, p);
          Assoc(old(parts[p].committed), HomeOf(actions[..i], p), IfHome(actions[i], p));
        }
      }
      assert actions[..|actions|] == actions;
      n := |actions|;
    }

    method NotifyOnAbort(parts: PartitionMap)
      requires Partitioned(parts) && HaveHomes(parts, actions) && !givenBack
      modifies this`clientNotified, this`givenBack, parts.Values`committed
      ensures forall p :: p in parts ==> parts[p].committed == old(parts[p].committed) + HomeOf(actions, p)
      ensures clientNotified == old(clientNotified) + 1 && givenBack
    {
      var _ := NotifyPartitions(parts);
      clientNotified := clientNotified + 1;
      givenBack := true;
    }

    /** _run(): abort if the transaction was aborted, otherwise commit; a commit that fails is
        aborted.  On every path but that of a lazy commit all actions are sent home and the
        client is told, once; a lazy commit does nothing of this and goes to the flusher. */
    method Run(parts: PartitionMap, toFlush: FlushQueue, flusher: bool, db: Answers, ghost t: Tx) returns (error: bool)
      requires Partitioned(parts) && HaveHomes(parts, actions) && !givenBack
      requires t.actions == actions && (t.aborted <==> decision == AdAbort) && t.mode == Running && t.toNotify == []
      modifies this, toFlush, parts.Values`committed
      ensures var t' := RunTerminal(t, db.commitOk, flusher, db.lastLsn);
              && (forall p :: p in parts ==> parts[p].committed == old(parts[p].committed) + HomeOf(t'.toNotify, p))
              && toFlush.waiting == old(toFlush.waiting) + (if t'.mode.Flushing? then [this] else [])
              && clientNotified == old(clientNotified) + (if t'.mode.Flushing? then 0 else 1)
              && (givenBack <==> !t'.mode.Flushing?)
              && (t'.mode.Flushing? ==> lastLsn == db.lastLsn)
              && (t'.outcome == Aborted <==> decision == AdAbort || !db.commitOk)
      ensures flusher && decision != AdAbort && db.commitOk ==>
                && (forall p :: p in parts ==> parts[p].committed == old(parts[p].committed))
                && toFlush.waiting == old(toFlush.waiting) + [this]
                && lastLsn == db.lastLsn && clientNotified == old(clientNotified) && !givenBack
      ensures !flusher || decision == AdAbort || !db.commitOk ==>
                && (forall p :: p in parts ==> parts[p].committed == old(parts[p].committed) + HomeOf(actions, p))
                && toFlush.waiting == old(toFlush.waiting)
                && clientNotified == old(clientNotified) + 1 && givenBack
      ensures error <==> if decision == AdAbort then !db.abortOk else !db.commitOk
      ensures committedStats == old(committedStats) +
                (if !flusher && decision != AdAbort && db.commitOk then 1 else 0)
      ensures abortedStats == old(abortedStats) +
                (if (if decision == AdAbort then db.abortOk else !db.commitOk) then 1 else 0)
      ensures actions == old(actions) && decision == old(decision)
    {
      if decision == AdAbort {
        // aborts are never lazy: rollback works on records that are on disk
        error := !db.abortOk;
        if !error {
          abortedStats := abortedStats + 1;
        }
        if flusher {
          NotifyOnAbort(parts);
        }
      } else {
        if flusher {
          lastLsn := db.lastLsn;
        }
        error := !db.commitOk;
        if error {
          abortedStats := abortedStats + 1;
          if flusher {
            NotifyOnAbort(parts);
          }
        } else if flusher {
          toFlush.waiting := toFlush.waiting + [this];
        } else {
          committedStats := committedStats + 1;
        }
      }
      if !flusher {
        clientNotified := clientNotified + 1;
        var _ := NotifyPartitions(parts);
        givenBack := true;
      }
    }
  }
}
