/** A pool of identical resources with a FIFO queue of waiting threads.  Everything happens
    under one mutex; a thread that waits comes back exactly when it has been granted. */
module ResourcePools {
  import opened Sequences

  datatype Request = Request(thread: nat, count: nat)

  function Total(requests: seq<Request>): nat {
    if requests == [] then 0 else Total(requests[..|requests| - 1]) + requests[|requests| - 1].count
  }

  lemma TotalAppend(requests: seq<Request>, r: Request)
    ensures Total(requests + [r]) == Total(requests) + r.count
  {
    assert (requests + [r])[..|requests|] == requests;
  }

  lemma {:induction false} TotalConcat(x: seq<Request>, y: seq<Request>)
    ensures Total(x + y) == Total(x) + Total(y)
    decreases |y|
  {
    if y == [] {
      assert x + y == x;
    } else {
      assert (x + y)[..|x + y| - 1] == x + y[..|y| - 1];
      TotalConcat(x, y[..|y| - 1]);
    }
  }

  // How many of the waiters at the head fit into the free resources, one after the other
  function Fitting(waiters: seq<Request>, free: int): (n: nat)
    ensures n <= |waiters|
  {
    if waiters == [] || free < waiters[0].count then 0 else 1 + Fitting(waiters[1..], free - waiters[0].count)
  }

  /** The fitting waiters are the longest prefix that fits together. */
  lemma {:induction false} FittingIs(waiters: seq<Request>, free: int)
    ensures Total(waiters[..Fitting(waiters, free)]) <= free || Fitting(waiters, free) == 0
    ensures Fitting(waiters, free) < |waiters| ==>
              free - Total(waiters[..Fitting(waiters, free)]) < waiters[Fitting(waiters, free)].count
    decreases |waiters|
  {
    if waiters != [] && free >= waiters[0].count {
      var n := Fitting(waiters[1..], free - waiters[0].count);
      FittingIs(waiters[1..], free - waiters[0].count);
      assert waiters[..n + 1] == [waiters[0]] + waiters[1..][..n];
      TotalConcat([waiters[0]], waiters[1..][..n]);
      assert [waiters[0]][..0] == [];
    }
  }

  class ResourcePool {
    var capacity: nat
    var reserved: nat
    var nonIdle: nat
    var waiters: seq<Request>
    // histories: requests in the order of the calls, grants in the order of the wake-ups
    ghost var requested: seq<Request>
    ghost var granted: seq<Request>
    ghost var returned: nat

    /** Reserved is what was granted and not returned; grants and waiters together are the
        requests in their order; the head waiter does not fit; and since every request fits
        into the whole pool, somebody holds resources whenever anybody waits. */
    ghost predicate Valid()
      reads this
    {
      && reserved <= capacity
      && reserved + returned == Total(granted)
      && requested == granted + waiters
      && (forall i :: 0 <= i < |waiters| ==> waiters[i].count <= capacity)
      && (waiters != [] ==> capacity - reserved < waiters[0].count)
    }

    constructor (capacity: nat)
      ensures Valid() && this.capacity == capacity && reserved == 0 && requested == []
    {
      this.capacity := capacity;
      reserved, nonIdle, waiters := 0, 0, [];
      requested, granted, returned := [], [], 0;
    }

    /** Nobody is stranded: with a waiter in the queue some resource is out and will come
        back, and then the head is looked at again. */
    lemma NobodyIsStranded()
      requires Valid() && waiters != []
      ensures reserved > 0
    {
      assert waiters[0].count <= capacity;
    }

    /** reserve(): granted at once exactly when nobody waits and the request fits; otherwise
        the thread joins the end of the queue. */
    method Reserve(thread: nat, n: nat) returns (waited: bool)
      requires Valid() && n <= capacity
      modifies this
      ensures Valid() && capacity == old(capacity) && nonIdle == old(nonIdle) && returned == old(returned)
      ensures requested == old(requested) + [Request(thread, n)]
      ensures waited <==> old(waiters) != [] || old(capacity - reserved) < n
      ensures granted == old(granted) + if waited then [] else [Request(thread, n)]
      ensures waiters == old(waiters) + if waited then [Request(thread, n)] else []
    {
      hide Total;
      var r := Request(thread, n);
      ghost var g, w := granted, waiters;
      requested := requested + [r];
      var numUnreserved := capacity - reserved;
      if waiters != [] || numUnreserved < n {
        // wait_for_turn()
        waiters := waiters + [r];
        AppendOne(g, w, r);
        return true;
      }
      reserved := reserved + n;
      granted := granted + [r];
      TotalAppend(g, r);
      waited := false;
    }

    // waiter_wake()
    method WaiterWake()
      requires reserved <= capacity && reserved + returned == Total(granted) && requested == granted + waiters
      requires forall i :: 0 <= i < |waiters| ==> waiters[i].count <= capacity
      modifies this`reserved, this`waiters, this`granted
      ensures Valid()
      ensures var n := Fitting(old(waiters), old(capacity - reserved));
              granted == old(granted) + old(waiters)[..n] && waiters == old(waiters)[n..]
    {
      hide Total;
      ghost var all, g0, n := waiters, granted, 0;
      ghost var want := Fitting(waiters, capacity - reserved);
      while waiters != []
        invariant 0 <= n <= |all| && waiters == all[n..] && granted == g0 + all[..n]
        invariant want == n + Fitting(waiters, capacity - reserved)
        invariant reserved <= capacity && reserved + returned == Total(granted) && requested == granted + waiters
        decreases |waiters|
      {
        var numUnreserved := capacity - reserved;
        var wn := waiters[0];
        if numUnreserved < wn.count {
          // not enough resources to let this thread through
          return;
        }
        MoveHead(granted, waiters);
        TotalAppend(granted, wn);
        NextPrefix(g0, all, n);
        waiters := waiters[1..];
        reserved := reserved + wn.count;
        granted := granted + [wn];
        n := n + 1;
      }
    }

    /** unreserve(): the resources come back, and everybody at the head who fits is granted, in
        order, stopping at the first who does not. */
    method Unreserve(n: nat)
      requires Valid() && n <= reserved
      modifies this
      ensures Valid() && capacity == old(capacity) && nonIdle == old(nonIdle)
      ensures requested == old(requested) && returned == old(returned) + n
      ensures var k := Fitting(old(waiters), old(capacity - reserved) + n);
              granted == old(granted) + old(waiters)[..k] && waiters == old(waiters)[k..]
    {
      reserved := reserved - n;
      returned := returned + n;
      WaiterWake();
    }

    method NotifyCapacityIncrease(diff: nat)
      requires Valid() && diff > 0
      modifies this
      ensures Valid() && capacity == old(capacity) + diff && nonIdle == old(nonIdle)
      ensures requested == old(requested) && returned == old(returned)
      ensures var k := Fitting(old(waiters), old(capacity - reserved) + diff);
              granted == old(granted) + old(waiters)[..k] && waiters == old(waiters)[k..]
    {
      capacity := capacity + diff;
      WaiterWake();
    }

    method NotifyIdle()
      requires Valid() && nonIdle > 0
      modifies this`nonIdle
      ensures Valid() && nonIdle == old(nonIdle) - 1
    {
      nonIdle := nonIdle - 1;
    }

    method NotifyNonIdle()
      requires Valid() && nonIdle < reserved
      modifies this`nonIdle
      ensures Valid() && nonIdle == old(nonIdle) + 1 <= reserved
    {
      nonIdle := nonIdle + 1;
    }
  }

  lemma NextPrefix(g: seq<Request>, all: seq<Request>, n: nat)
    requires n < |all|
    ensures g + all[..n] + [all[n..][0]] == g + all[..n + 1] && all[n..][1..] == all[n + 1..]
  {
  }
}
