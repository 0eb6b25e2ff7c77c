/** Group commit: the flusher sorts the lazily committed transactions into those whose log
    record is durable already and those that wait for a flush, and hands them to the notifier
    when their records are durable.  LSNs are taken as numbers. */
module GroupCommit {
  import opened Sequences

  // A terminal rendezvous point in the queues, with the LSN of its commit record
  datatype Request = Request(id: nat, lsn: nat)

  function Durable(reqs: seq<Request>, lsn: nat): seq<Request> {
    if reqs == [] then []
    else
      var last := |reqs| - 1;
      Durable(reqs[..last], lsn) + if reqs[last].lsn < lsn then [reqs[last]] else []
  }

  function NotDurable(reqs: seq<Request>, lsn: nat): seq<Request> {
    if reqs == [] then []
    else
      var last := |reqs| - 1;
      NotDurable(reqs[..last], lsn) + if reqs[last].lsn < lsn then [] else [reqs[last]]
  }

  function Max(a: nat, b: nat): nat { if a < b then b else a }

  function MaxLsn(from: nat, reqs: seq<Request>): nat {
    if reqs == [] then from else Max(MaxLsn(from, reqs[..|reqs| - 1]), reqs[|reqs| - 1].lsn)
  }

  ghost predicate AllDurable(reqs: seq<Request>, lsn: nat) { forall i :: 0 <= i < |reqs| ==> reqs[i].lsn < lsn }

  lemma HalvesAppend(reqs: seq<Request>, r: Request, lsn: nat)
    ensures Durable(reqs + [r], lsn) == if r.lsn < lsn then Durable(reqs, lsn) + [r] else Durable(reqs, lsn)
    ensures NotDurable(reqs + [r], lsn) == if r.lsn < lsn then NotDurable(reqs, lsn) else NotDurable(reqs, lsn) + [r]
    ensures MaxLsn(lsn, reqs + [r]) == Max(MaxLsn(lsn, reqs), r.lsn)
  {
    assert (reqs + [r])[..|reqs|] == reqs;
  }

  lemma SplitLast(reqs: seq<Request>)
    requires reqs != []
    ensures reqs == reqs[..|reqs| - 1] + [reqs[|reqs| - 1]]
  {
  }

  /** The two halves lose nothing and duplicate nothing. */
  lemma {:induction false} HalvesAreAll(reqs: seq<Request>, lsn: nat)
    ensures multiset(Durable(reqs, lsn)) + multiset(NotDurable(reqs, lsn)) == multiset(reqs)
    decreases |reqs|
  {
    if reqs != [] {
      var init, r := reqs[..|reqs| - 1], reqs[|reqs| - 1];
      hide Durable, NotDurable;
      SplitLast(reqs);
      HalvesAppend(init, r, lsn);
      HalvesAreAll(init, lsn);
      assert multiset(init + [r]) == multiset(init) + multiset{r};
    }
  }

  /** The first half is what the durable LSN has passed, the second half the rest. */
  lemma {:induction false} HalvesSplit(reqs: seq<Request>, lsn: nat)
    ensures forall r :: r in Durable(reqs, lsn) ==> r.lsn < lsn
    ensures forall r :: r in NotDurable(reqs, lsn) ==> r.lsn >= lsn
    decreases |reqs|
  {
    if reqs != [] {
      HalvesSplit(reqs[..|reqs| - 1], lsn);
    }
  }

  /** Every LSN in the second half is at most the greatest one gathered, so a flush past that
      one makes the whole second half durable. */
  lemma {:induction false} GatheredBound(reqs: seq<Request>, lsn: nat, flushed: nat)
    requires MaxLsn(lsn, NotDurable(reqs, lsn)) < flushed
    ensures AllDurable(Durable(reqs, lsn), lsn) && AllDurable(NotDurable(reqs, lsn), flushed)
    decreases |reqs|
  {
    if reqs != [] {
      hide Durable, NotDurable, MaxLsn, AllDurable;
      var init, r := reqs[..|reqs| - 1], reqs[|reqs| - 1];
      var half := NotDurable(init, lsn);
      SplitLast(reqs);
      HalvesAppend(init, r, lsn);
      HalvesAppend(half, r, lsn);
      GatheredBound(init, lsn, flushed);
      DurableAppend(Durable(init, lsn), r, lsn);
      DurableAppend(half, r, flushed);
    }
  }

  lemma DurableAppend(reqs: seq<Request>, r: Request, lsn: nat)
    requires AllDurable(reqs, lsn)
    ensures r.lsn < lsn ==> AllDurable(reqs + [r], lsn)
  {
  }

  lemma {:induction false} DurableHalf(reqs: seq<Request>, lsn: nat)
    ensures AllDurable(Durable(reqs, lsn), lsn)
    decreases |reqs|
  {
    if reqs != [] {
      DurableHalf(reqs[..|reqs| - 1], lsn);
    }
  }

  lemma NoneGathered(lsn: nat, reqs: seq<Request>)
    ensures reqs == [] ==> MaxLsn(lsn, reqs) == lsn
  {
  }

  // Commit records of queued transactions are in the log
  lemma {:induction false} GatheredIsLogged(reqs: seq<Request>, lsn: nat, endOfLog: nat)
    requires AllDurable(reqs, endOfLog) && lsn <= endOfLog
    ensures AllDurable(NotDurable(reqs, lsn), endOfLog)
    ensures NotDurable(reqs, lsn) != [] ==> MaxLsn(lsn, NotDurable(reqs, lsn)) < endOfLog
    decreases |reqs|
  {
    if reqs != [] {
      hide Durable, NotDurable, MaxLsn;
      var init, r := reqs[..|reqs| - 1], reqs[|reqs| - 1];
      SplitLast(reqs);
      HalvesAppend(init, r, lsn);
      HalvesAppend(NotDurable(init, lsn), r, lsn);
      GatheredIsLogged(init, lsn, endOfLog);
      NoneGathered(lsn, NotDurable(init, lsn));
    }
  }

  // The queue once the flusher has woken up
  function Woken(toFlush: seq<Request>, sleepNext: bool, arrival: seq<Request>): seq<Request> {
    if toFlush == [] && sleepNext then arrival else toFlush
  }

  // Who joins the queue while the k-th request is being sorted out, and up to the n-th
  function Arrived(late: seq<seq<Request>>, k: nat): seq<Request> { if k < |late| then late[k] else [] }

  function Joined(late: seq<seq<Request>>, n: nat): seq<Request> {
    if n == 0 then [] else Joined(late, n - 1) + Arrived(late, n - 1)
  }

  lemma NobodyJoined(late: seq<seq<Request>>)
    ensures Joined(late, 0) == []
  {
  }

  lemma OneMoreJoined(late: seq<seq<Request>>, n: nat)
    ensures Joined(late, n + 1) == Joined(late, n) + if n < |late| then late[n] else []
  {
  }

  // What a round knows about the time and its thresholds
  datatype Config = Config(maxGroupSize: nat, maxLogSize: nat)

  class Flusher {
    var toFlush: seq<Request>
    var flushing: seq<Request>
    var toNotify: seq<Request>
    var notified: seq<Request>
    var durable: nat           // the durable LSN of the storage manager
    var waiting: nat
    var sleepNext: bool
    var served: nat
    var alreadyFlushed: nat
    var flushes: nat

    /** Every request is in exactly one place, whoever has reached the notifier is durable, and
        between rounds nobody is left in the flushing queue. */
    ghost predicate Valid()
      reads this
    {
      && flushing == []
      && AllDurable(toNotify, durable) && AllDurable(notified, durable)
    }

    ghost function Everybody(): multiset<Request>
      reads this
    {
      multiset(toFlush) + multiset(flushing) + multiset(toNotify) + multiset(notified)
    }

    constructor (durable: nat)
      ensures Valid() && Everybody() == multiset{} && this.durable == durable && waiting == 0
    {
      toFlush, flushing, toNotify, notified := [], [], [], [];
      this.durable := durable;
      waiting, sleepNext, served, alreadyFlushed, flushes := 0, false, 0, 0, 0;
    }

    method EnqueueToFlush(r: Request)
      requires Valid()
      modifies this`toFlush
      ensures Valid() && toFlush == old(toFlush) + [r]
      ensures Everybody() == old(Everybody()) + multiset{r}
    {
      toFlush := toFlush + [r];
    }

    // _check_waiting().  If the flusher sleeps on an empty queue, `arrival` is what wakes it
    // up: a request, or nothing when it is told to stop.  `all` is everybody it takes
    method CheckWaiting(durableLsn: nat, arrival: seq<Request>, late: seq<seq<Request>>)
      returns (maxLsn: nat, ghost all: seq<Request>)
      requires |arrival| <= 1
      modifies this`toFlush, this`flushing, this`toNotify, this`waiting, this`sleepNext, this`served,
          this`alreadyFlushed
      ensures toFlush == [] && !sleepNext
      ensures all == Woken(old(toFlush), old(sleepNext), arrival) + Joined(late, |all|)
      ensures old(toFlush) <= all && (old(toFlush) == [] && old(sleepNext) ==> arrival <= all)
      ensures toNotify == old(toNotify) + Durable(all, durableLsn)
      ensures flushing == old(flushing) + NotDurable(all, durableLsn)
      ensures maxLsn == MaxLsn(durableLsn, NotDurable(all, durableLsn))
      ensures waiting == old(waiting) + |NotDurable(all, durableLsn)|
      ensures alreadyFlushed == old(alreadyFlushed) + |Durable(all, durableLsn)|
      ensures served == old(served) + |all| + (if old(toFlush) == arrival == [] && old(sleepNext) then 1 else 0)
    {
      hide Durable, NotDurable, MaxLsn;
      if toFlush == [] && sleepNext {
        toFlush := arrival;
        if arrival == [] { served := served + 1; }
      }
      sleepNext := false;
      maxLsn, all := SortOut(durableLsn, late);
    }

    // The loop of it; late[k] is who joins the queue while the k-th request is being sorted out
    method SortOut(durableLsn: nat, late: seq<seq<Request>>) returns (maxLsn: nat, ghost all: seq<Request>)
      modifies this`toFlush, this`flushing, this`toNotify, this`waiting, this`served, this`alreadyFlushed
      ensures toFlush == []
      ensures all == old(toFlush) + Joined(late, |all|)
      ensures toNotify == old(toNotify) + Durable(all, durableLsn)
      ensures flushing == old(flushing) + NotDurable(all, durableLsn)
      ensures maxLsn == MaxLsn(durableLsn, NotDurable(all, durableLsn))
      ensures waiting == old(waiting) + |NotDurable(all, durableLsn)|
      ensures alreadyFlushed == old(alreadyFlushed) + |Durable(all, durableLsn)|
      ensures served == old(served) + |all|
    {
      hide Gathered, Durable, NotDurable, MaxLsn, Joined;
      maxLsn := durableLsn;
      ghost var done: seq<Request> := [];
      ghost var toNotify0, flushing0, w0, f0 := toNotify, flushing, waiting, alreadyFlushed;
      NothingYet(toNotify, flushing, durableLsn);
      NobodyJoined(late);
      var k := 0;
      while toFlush != []
        invariant k == |done| && done + toFlush == old(toFlush) + Joined(late, k)
        invariant waiting >= w0 && alreadyFlushed >= f0
        invariant served == old(served) + |done|
        invariant Gathered(toNotify0, flushing0, done, durableLsn, toNotify, flushing, maxLsn, waiting - w0,
            alreadyFlushed - f0)
        decreases if k < |late| then |late| - k else 0, |toFlush|
      {
        var r := toFlush[0];
        MoveHead(done, toFlush);
        GatherOne(toNotify0, flushing0, done, durableLsn, toNotify, flushing, maxLsn, waiting - w0,
            alreadyFlushed - f0, r);
        OneMoreJoined(late, k);
        Assoc(done + [r], toFlush[1..], Arrived(late, k));
        Assoc(old(toFlush), Joined(late, k), Arrived(late, k));
        toFlush := toFlush[1..] + Arrived(late, k);
        if durableLsn > r.lsn {
          toNotify := toNotify + [r];
          alreadyFlushed := alreadyFlushed + 1;
        } else {
          maxLsn := Max(maxLsn, r.lsn);
          flushing := flushing + [r];
          waiting := waiting + 1;
        }
        served := served + 1;
        done := done + [r];
        k := k + 1;
      }
      all := done;
      assert all + [] == all;
      GatheredIs(toNotify0, flushing0, all, durableLsn, toNotify, flushing, maxLsn, waiting - w0, alreadyFlushed - f0);
    }

    // _move_from_flushing(): its assert is the precondition
    method MoveFromFlushing(durableLsn: nat)
      requires AllDurable(flushing, durableLsn)
      modifies this`flushing, this`toNotify
      ensures flushing == [] && toNotify == old(toNotify) + old(flushing)
    {
      ghost var all, done := flushing, 0;
      while flushing != []
        invariant done <= |all| && flushing == all[done..] && toNotify == old(toNotify) + all[..done]
        decreases |flushing|
      {
        var r := flushing[0];
        assert r == all[done];
        assert r.lsn < durableLsn;
        flushing := flushing[1..];
        toNotify := toNotify + [r];
        done := done + 1;
      }
      assert all[..done] == all;
    }

    // sync_log() makes everything durable that is in the log
    method SyncLog(endOfLog: nat)
      requires endOfLog >= durable
      modifies this`durable
      ensures durable == endOfLog
    {
      durable := endOfLog;
    }

    // A group that is big enough, a log that is long enough, or the time call for a full flush;
    // whenever anybody waits, the log is flushed one way or another
    method MaybeFlush(config: Config, timeIsUp: bool, endOfLog: nat, maxLsn: nat)
      requires maxLsn >= durable && endOfLog >= durable
      modifies this`durable, this`waiting, this`sleepNext, this`flushes
      ensures var full := old(waiting) >= config.maxGroupSize || maxLsn - old(durable) >= config.maxLogSize || timeIsUp;
              && durable == (if full || old(waiting) > 0 then endOfLog else old(durable))
              && waiting == (if full then 0 else old(waiting))
              && sleepNext == (old(sleepNext) || !full)
              && flushes == old(flushes) + (if full then 1 else 0)
    {
      var shouldFlush := false;
      if waiting >= config.maxGroupSize {
        shouldFlush := true;
      } else if maxLsn - durable >= config.maxLogSize {
        shouldFlush := true;
      } else if timeIsUp {
        shouldFlush := true;
      } else {
        if waiting > 0 {
          SyncLog(endOfLog);
        }
        sleepNext := true;
      }
      if shouldFlush {
        flushes := flushes + 1;
        SyncLog(endOfLog);
        waiting := 0;
      }
    }

    /** One round of the flusher.  `endOfLog` is past every record of the queued transactions,
        because a commit record is in the log before its transaction is queued.  Whether the
        group is big enough, the log long enough, the time is up, or none of them: nobody
        leaves the flushing queue before a flush, so the assert of _move_from_flushing()
        holds, and everybody who was queued, also while the queue was being sorted out, is now
        with the notifier, once.  Who comes after that waits for the next round. */
    method Round(
        config: Config, timeIsUp: bool, endOfLog: nat,
        arrival: seq<Request>, late: seq<seq<Request>>, after: seq<Request>)
      returns (ghost all: seq<Request>)
      requires Valid() && |arrival| <= 1 && endOfLog >= durable
      requires AllDurable(toFlush, endOfLog) && AllDurable(arrival, endOfLog)
      requires forall i :: 0 <= i < |late| ==> AllDurable(late[i], endOfLog)
      modifies this
      ensures Valid() && toFlush == after && notified == old(notified)
      ensures all == Woken(old(toFlush), old(sleepNext), arrival) + Joined(late, |all|)
      ensures old(toFlush) <= all && (old(toFlush) == [] && old(sleepNext) ==> arrival <= all)
      ensures toNotify == old(toNotify) + (Durable(all, old(durable)) + NotDurable(all, old(durable)))
      ensures multiset(toNotify) == multiset(old(toNotify)) + multiset(all)
      ensures forall r :: r in all ==> r in toNotify && r.lsn < durable
      ensures durable == endOfLog || (durable == old(durable) && NotDurable(all, durable) == [])
    {
      hide Durable, NotDurable, MaxLsn, AllDurable, Joined;
      var before := durable;
      ghost var queue := Woken(toFlush, sleepNext, arrival);
      var maxLsn;
      maxLsn, all := CheckWaiting(before, arrival, late);
      AllLogged(queue, late, |all|, endOfLog);
      HalvesAreAll(all, before);
      DurableHalf(all, before);
      GatheredIsLogged(all, before, endOfLog);
      MaxIsUp(before, NotDurable(all, before));
      EmptyIsDurable(NotDurable(all, before), before);
      EmptyAppend(NotDurable(all, before));
      toFlush := after;
      MaybeFlush(config, timeIsUp, endOfLog, maxLsn);
      MoveFromFlushing(durable);
      Assoc(old(toNotify), Durable(all, before), NotDurable(all, before));
      RoundAccount(old(toNotify), Durable(all, before), NotDurable(all, before), all, before, durable);
      StillDurable(notified, before, durable);
    }

    // The notifier takes the next one and tells its partitions and its client
    method NotifyNext()
      requires Valid() && toNotify != []
      modifies this`toNotify, this`notified
      ensures Valid() && notified == old(notified) + [old(toNotify[0])] && toNotify == old(toNotify[1..])
      ensures old(toNotify[0]).lsn < durable
      ensures Everybody() == old(Everybody())
    {
      assert toNotify == [toNotify[0]] + toNotify[1..];
      notified := notified + [toNotify[0]];
      toNotify := toNotify[1..];
    }
  }

  lemma StillDurable(reqs: seq<Request>, lsn: nat, lsn': nat)
    requires AllDurable(reqs, lsn) && lsn <= lsn'
    ensures AllDurable(reqs, lsn')
  {
  }

  // The queues after the requests `done` have been sorted out
  ghost predicate Gathered(
      toNotify0: seq<Request>, flushing0: seq<Request>, done: seq<Request>, lsn: nat,
      toNotify: seq<Request>, flushing: seq<Request>, maxLsn: nat, waiting: int, already: int) {
    && toNotify == toNotify0 + Durable(done, lsn) && flushing == flushing0 + NotDurable(done, lsn)
    && maxLsn == MaxLsn(lsn, NotDurable(done, lsn))
    && waiting == |NotDurable(done, lsn)| && already == |Durable(done, lsn)|
  }

  lemma GatheredIs(
      toNotify0: seq<Request>, flushing0: seq<Request>, done: seq<Request>, lsn: nat,
      toNotify: seq<Request>, flushing: seq<Request>, maxLsn: nat, waiting: int, already: int)
    requires Gathered(toNotify0, flushing0, done, lsn, toNotify, flushing, maxLsn, waiting, already)
    ensures toNotify == toNotify0 + Durable(done, lsn) && flushing == flushing0 + NotDurable(done, lsn)
    ensures maxLsn == MaxLsn(lsn, NotDurable(done, lsn))
    ensures waiting == |NotDurable(done, lsn)| && already == |Durable(done, lsn)|
  {
  }

  lemma NothingYet(toNotify: seq<Request>, flushing: seq<Request>, lsn: nat)
    ensures Gathered(toNotify, flushing, [], lsn, toNotify, flushing, lsn, 0, 0)
  {
    assert Durable([], lsn) == [] == NotDurable([], lsn);
  }

  lemma GatherOne(
      toNotify0: seq<Request>, flushing0: seq<Request>, done: seq<Request>, lsn: nat,
      toNotify: seq<Request>, flushing: seq<Request>, maxLsn: nat, waiting: int, already: int, r: Request)
    requires Gathered(toNotify0, flushing0, done, lsn, toNotify, flushing, maxLsn, waiting, already)
    ensures r.lsn < lsn ==>
              Gathered(toNotify0, flushing0, done + [r], lsn, toNotify + [r], flushing, maxLsn, waiting, already + 1)
    ensures r.lsn >= lsn ==>
              Gathered(toNotify0, flushing0, done + [r], lsn,
                       toNotify, flushing + [r], Max(maxLsn, r.lsn), waiting + 1, already)
  {
    hide Durable, NotDurable, MaxLsn;
    HalvesAppend(done, r, lsn);
    HalvesAppend(NotDurable(done, lsn), r, lsn);
    AppendOne(toNotify0, Durable(done, lsn), r);
    AppendOne(flushing0, NotDurable(done, lsn), r);
  }

  // Both halves have joined those that were with the notifier
  lemma RoundAccount(
      first: seq<Request>, early: seq<Request>, late: seq<Request>, all: seq<Request>, lsn: nat, lsn': nat)
    requires multiset(early) + multiset(late) == multiset(all) && lsn <= lsn'
    requires AllDurable(first, lsn) && AllDurable(early, lsn) && AllDurable(late, lsn')
    ensures var after := first + (early + late);
            && multiset(after) == multiset(first) + multiset(all) && AllDurable(after, lsn')
            && forall r :: r in all ==> r in after && r.lsn < lsn'
  {
    assert forall r :: r in all ==> r in multiset(all);
    assert forall r :: r in all ==> r in early || r in late;
  }

  lemma EmptyIsDurable(reqs: seq<Request>, lsn: nat)
    ensures reqs == [] ==> AllDurable(reqs, lsn)
  {
  }

  lemma {:induction false} AllLogged(queue: seq<Request>, late: seq<seq<Request>>, n: nat, endOfLog: nat)
    requires AllDurable(queue, endOfLog) && forall i :: 0 <= i < |late| ==> AllDurable(late[i], endOfLog)
    ensures AllDurable(queue + Joined(late, n), endOfLog)
  {
    if n == 0 {
      assert queue + [] == queue;
    } else {
      AllLogged(queue, late, n - 1, endOfLog);
      Assoc(queue, Joined(late, n - 1), Arrived(late, n - 1));
    }
  }

  lemma {:induction false} MaxIsUp(lsn: nat, reqs: seq<Request>)
    ensures MaxLsn(lsn, reqs) >= lsn
    decreases |reqs|
  {
    if reqs != [] {
      MaxIsUp(lsn, reqs[..|reqs| - 1]);
    }
  }
}
