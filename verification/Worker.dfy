/** The worker of a partition as a program: one round of its loop when nobody interferes.
    The transition system of `Protocol` interleaves the same steps with those of everybody
    else; here they are run in the order of the code, loops and counters included. */
module Workers {
  import opened LockTables
  import opened LogicalLocks
  import opened LockOrder
  import opened Sequences
  import opened Partitions

  // What trx_exec() returns, and what _serve_action() makes of it
  datatype ExecResult = Fine | GaveUp | Failed

  datatype ReturnCode = Ok | MidwayAbort | RunXct | EarlyAbort | RunRvp

  // An action that has been served, with the argument of its post()
  datatype Post = Posted(a: Action, isError: bool)

  // The post of an action: only a failed body reports an error
  function PostOf(a: Action, aborted: Action -> bool, exec: Action -> ExecResult): Post {
    Posted(a, !aborted(a) && exec(a) == Failed)
  }

  function PostsOf(actions: seq<Action>, aborted: Action -> bool, exec: Action -> ExecResult): (posts: seq<Post>)
    ensures |posts| == |actions| && forall i :: 0 <= i < |posts| ==> posts[i] == PostOf(actions[i], aborted, exec)
  {
    seq(|actions|, i requires 0 <= i < |actions| => PostOf(actions[i], aborted, exec))
  }

  // The places after a list of ready actions has been served
  function ServedPlaces(place: Places, ready: seq<Action>): Places {
    map a | a in place :: if a in ready then Done else place[a]
  }

  // What is left of an order when some actions leave it
  function Remaining(order: seq<Action>, gone: seq<Action>): seq<Action> {
    if order == [] then []
    else
      var last := order[|order| - 1];
      Remaining(order[..|order| - 1], gone) + if last in gone then [] else [last]
  }

  // Serving the head of the ready list, all steps of it
  function ServeHead(p: Part, aborted: bool, err: bool): Part
    requires p.pc.Serve? && p.pc.todo != []
  {
    var started := ServeNext(p, aborted);
    AfterPost(AbortSet(if aborted then started else EndExec(started, err)))
  }

  lemma ServeHeadKeeps(p: Part, aborted: bool, err: bool)
    requires PartInv(p) && p.pc.Serve? && p.pc.todo != []
    ensures var p' := ServeHead(p, aborted, err);
            && PartInv(p')
            && p'.table == p.table && p'.needed == p.needed && p'.order == p.order
            && p'.input == p.input && p'.committed == p.committed
            && p'.pc == Serve(p.pc.todo[1..]) && p'.place == p.place[p.pc.todo[0] := Done]
    ensures At(p.place, p.pc.todo[0], Ready)
    ensures p.pc.todo[0] in p.needed && p.needed[p.pc.todo[0]] == 0
  {
    hide PartInv;
    var started := ServeNext(p, aborted);
    ServeNextKeeps(p, aborted);
    ReadyCounter(p, p.pc.todo[0]);
    if !aborted { EndExecKeeps(started, err); }
    var posting := if aborted then started else EndExec(started, err);
    PcKeeps(posting, AbortSet(posting).pc);
    AfterPostKeeps(AbortSet(posting));
  }

  /** With an empty ready list, an unreleased action waits exactly when an earlier one that
      has not been released blocks it: nobody who could run is left behind. */
  ghost predicate NobodyForgotten(p: Part) {
    forall i :: 0 <= i < |p.order| ==>
      p.order[i] in p.place && (p.place[p.order[i]] == Waiting <==> !Runnable(p.order[..i], p.order[i]))
  }

  lemma IdleForgetsNobody(p: Part)
    requires PartInv(p)
    ensures NobodyForgotten(p)
  {
    hide Separate, LockSide, QueueSide, Runnable;
    forall i | 0 <= i < |p.order|
      ensures p.order[i] in p.place && (p.place[p.order[i]] == Waiting <==> !Runnable(p.order[..i], p.order[i]))
    {
      ReadyIffRunnable(p, i);
      assert OrderAt(p.order, p.needed, p.place, p.order[i]);
    }
  }

  class Worker {
    var part: Part
    var posts: seq<Post>
    var servedWaiting: nat
    var servedInput: nat
    var processed: nat
    var problems: nat
    var midAborts: nat
    var earlyAborts: nat

    /** _serve_action(): the head of the ready list runs its body unless its transaction has been
        aborted, and posts; the post reports an error exactly if the body ran and failed.
        `posting` is the partition when post() is called, with that report in it; rvpFails is
        the result of run() when this post is the last one. */
    method ServeAction(aborted: Action -> bool, exec: Action -> ExecResult, last: bool, rvpFails: bool)
      returns (code: ReturnCode, ghost posting: Part)
      requires PartInv(part) && part.pc.Serve? && part.pc.todo != []
      modifies this
      ensures PartInv(part)
      ensures var a, n := old(part.pc.todo[0]), |old(posts)|;
              && |posts| == n + 1 && posts[..n] == old(posts) && posts[n].a == a
              && (posts[n].isError <==> !aborted(a) && exec(a) == Failed)
              && posting.pc == Partitions.Post(a, posts[n].isError, old(part.pc.todo)[1..])
              && part == AfterPost(AbortSet(posting))
      ensures var a := old(part.pc.todo[0]);
              && part == ServeHead(old(part), aborted(a), exec(a) == Failed)
              && posts == old(posts) + [PostOf(a, aborted, exec)]
              && problems == old(problems) + (if !aborted(a) && exec(a) == Failed then 1 else 0)
              && midAborts == old(midAborts) + (if !aborted(a) && exec(a) == GaveUp then 1 else 0)
              && earlyAborts == old(earlyAborts) + (if aborted(a) then 1 else 0)
              && code == (if last && rvpFails then RunRvp
                          else if aborted(a) then EarlyAbort
                          else match exec(a) case Fine => Ok case GaveUp => MidwayAbort case Failed => RunXct)
      ensures processed == old(processed) + 1 && servedWaiting == old(servedWaiting) && servedInput == old(servedInput)
    {
      hide PartInv;
      var a := part.pc.todo[0];
      ServeHeadKeeps(part, aborted(a), exec(a) == Failed);
      assert part.needed[a] == 0;  // is_ready()

      var isError := false;
      code := Ok;
      part := ServeNext(part, aborted(a));
      if !aborted(a) {
        var e := exec(a);
        if e == GaveUp {
          code := MidwayAbort;
          midAborts := midAborts + 1;
        } else if e == Failed {
          isError := true;
          code := RunXct;
          problems := problems + 1;
        }
        part := EndExec(part, isError);
      } else {
        code := EarlyAbort;
        earlyAborts := earlyAborts + 1;
      }

      // post(isError)
      posts := posts + [Posted(a, isError)];
      posting := part;
      part := AfterPost(AbortSet(part));
      if last && rvpFails {
        code := RunRvp;
      }
      processed := processed + 1;
    }

    // Step 2d: serve the actions that a release made ready
    method ServeReady(aborted: Action -> bool, exec: Action -> ExecResult)
      requires PartInv(part) && part.pc.Serve?
      modifies this
      ensures PartInv(part) && part.pc == Serve([])
      ensures part.table == old(part.table) && part.order == old(part.order)
      ensures part.input == old(part.input) && part.committed == old(part.committed)
      ensures part.place == ServedPlaces(old(part.place), old(part.pc.todo))
      ensures posts == old(posts) + PostsOf(old(part.pc.todo), aborted, exec)
      ensures var n := |old(posts)|;
              && |posts| == n + |old(part.pc.todo)| && posts[..n] == old(posts)
              && forall i :: 0 <= i < |old(part.pc.todo)| ==>
                   && posts[n + i].a == old(part.pc.todo)[i]
                   && (posts[n + i].isError <==> !aborted(old(part.pc.todo)[i]) && exec(old(part.pc.todo)[i]) == Failed)
      ensures servedWaiting == old(servedWaiting) + |old(part.pc.todo)|
      ensures processed == old(processed) + |old(part.pc.todo)| && servedInput == old(servedInput)
    {
      hide PartInv, ServedPlaces;
      ghost var p0, posts0 := part, posts;
      ghost var ready := part.pc.todo;
      ghost var i := 0;
      NoneServed(p0.place);
      while part.pc.todo != []
        invariant PartInv(part) && part.pc.Serve?
        invariant i <= |ready| && part.pc.todo == ready[i..]
        invariant part.table == p0.table && part.order == p0.order
        invariant part.input == p0.input && part.committed == p0.committed
        invariant part.place == ServedPlaces(p0.place, ready[..i])
        invariant posts == posts0 + PostsOf(ready[..i], aborted, exec)
        invariant servedWaiting == old(servedWaiting) + i && processed == old(processed) + i
        invariant servedInput == old(servedInput)
        decreases |part.pc.todo|
      {
        var a := part.pc.todo[0];
        ServeHeadKeeps(part, aborted(a), exec(a) == Failed);
        PlacesGrow(p0.place, ready, i);
        var _, _ := ServeAction(aborted, exec, false, false);
        servedWaiting := servedWaiting + 1;
        PrefixGrows(ready, i);
        PostsGrow(ready[..i], a, aborted, exec);
        i := i + 1;
      }
      assert ready[..i] == ready;
    }

    // Steps 2a to 2d: release the committed actions one by one, and serve whom that wakes
    method DrainCommits(aborted: Action -> bool, exec: Action -> ExecResult) returns (ghost woken: seq<Action>)
      requires PartInv(part) && part.pc == Loop
      modifies this
      ensures PartInv(part) && part.pc == Loop && part.committed == [] && part.input == old(part.input)
      ensures part.order == Remaining(old(part.order), old(part.committed))
      ensures AfterDrain(old(part.place), part.place, old(part.committed))
      ensures Woke(old(part.place), part.place, woken) && posts == old(posts) + PostsOf(woken, aborted, exec)
      ensures var n := |old(posts)|;
              && |posts| == n + |woken| && posts[..n] == old(posts)
              && forall i :: 0 <= i < |woken| ==>
                   && posts[n + i].a == woken[i]
                   && (posts[n + i].isError <==> !aborted(woken[i]) && exec(woken[i]) == Failed)
      ensures processed - old(processed) == |woken| == servedWaiting - old(servedWaiting)
      ensures servedInput == old(servedInput)
    {
      hide PartInv, ServedPlaces, AfterDrain, Woke, PostsOf, WithoutAt, CanDrain, Drain, NoDup, Remaining;
      ghost var order0, place0, gone := part.order, part.place, part.committed;
      ghost var drained: seq<Action> := [];
      NotDrained(part.place);
      woken := [];
      PostsOfNone(aborted, exec);
      EmptyAppend(posts);
      while part.committed != []
        invariant PartInv(part) && part.pc == Loop && part.input == old(part.input)
        invariant Remaining(part.order, part.committed) == Remaining(order0, gone)
        invariant gone == drained + part.committed && AfterDrain(place0, part.place, drained)
        invariant Woke(place0, part.place, woken) && posts == old(posts) + PostsOf(woken, aborted, exec)
        invariant processed - old(processed) == |woken| == servedWaiting - old(servedWaiting)
        invariant servedInput == old(servedInput)
        decreases |part.committed|
      {
        ghost var before, a := part.place, part.committed[0];
        DrainKeeps(part);
        DrainShrinks(part);
        MoveHead(drained, part.committed);
        part := Drain(part);
        ghost var ready := part.pc.todo;
        AfterOneMore(place0, before, drained, a, ready);
        TodoOnce(part);
        WokeMore(place0, before, drained, woken, a, ready);
        PostsOfMore(woken, ready, aborted, exec);
        Assoc(old(posts), PostsOf(woken, aborted, exec), PostsOf(ready, aborted, exec));
        woken := woken + ready;
        ServeReady(aborted, exec);
        PcKeeps(part, Loop);
        part := ServeNone(part);
        drained := drained + [a];
      }
      NothingGone(part.order);
      assert drained + [] == drained;
    }

    // Step 4b: serve the input action that got all its locks
    method ServeTaken(aborted: Action -> bool, exec: Action -> ExecResult)
      requires PartInv(part) && part.pc.Serve? && |part.pc.todo| == 1
      modifies this
      ensures PartInv(part) && part.pc == Loop
      ensures part.order == old(part.order) && part.input == old(part.input) && part.committed == old(part.committed)
      ensures part.place == old(part.place)[old(part.pc.todo[0]) := Done]
      ensures posts == old(posts) + [PostOf(old(part.pc.todo[0]), aborted, exec)]
      ensures var a, n := old(part.pc.todo[0]), |old(posts)|;
              |posts| == n + 1 && posts[n].a == a && (posts[n].isError <==> !aborted(a) && exec(a) == Failed)
      ensures servedInput == old(servedInput) + 1 && processed == old(processed) + 1
      ensures servedWaiting == old(servedWaiting)
    {
      hide PartInv;
      ServeHeadKeeps(part, aborted(part.pc.todo[0]), exec(part.pc.todo[0]) == Failed);
      var _, _ := ServeAction(aborted, exec, false, false);
      PcKeeps(part, Loop);
      part := ServeNone(part);
      servedInput := servedInput + 1;
    }

    // Steps 3 and 4: take one input action, ask for its locks, and serve it if it got them
    method TakeOne(aborted: Action -> bool, exec: Action -> ExecResult)
      requires PartInv(part) && part.pc == Input
      modifies this
      ensures PartInv(part) && part.pc == Loop && part.committed == old(part.committed)
      ensures old(part.input) == [] ==> part == old(part).(pc := Loop) && posts == old(posts)
      ensures old(part.input) != [] ==>
                var a := old(part.input[0]);
                && part.input == old(part.input[1..]) && part.order == old(part.order) + [a]
                && part.place.Keys == old(part.place.Keys)
                && (forall b :: b in part.place && b != a ==> part.place[b] == old(part.place)[b])
                && At(old(part.place), a, InInput)
                && At(part.place, a, if Runnable(old(part.order), a) then Done else Waiting)
                && posts == (if Runnable(old(part.order), a) then old(posts) + [PostOf(a, aborted, exec)]
                             else old(posts))
                && (Runnable(old(part.order), a) ==>
                      var n := |old(posts)|;
                      |posts| == n + 1 && posts[n].a == a && (posts[n].isError <==> !aborted(a) && exec(a) == Failed))
      ensures servedInput - old(servedInput) == |posts| - |old(posts)| == processed - old(processed)
      ensures servedWaiting == old(servedWaiting)
    {
      hide PartInv, AcquireAll, RequestsOf, Runnable;
      if part.input == [] {
        PcKeeps(part, Loop);
        part := EmptyPop(part);
        return;
      }
      TakeInputKeeps(part);
      TakenIsReady(part);
      part := TakeInput(part);
      if part.pc.Serve? {
        ServeTaken(aborted, exec);
      }
    }

    /** One round of _work_ACTIVE_impl() when nobody interferes: all commits are released in
        their order, one input action joins the order, and everybody who can run has run. */
    method Round(aborted: Action -> bool, exec: Action -> ExecResult) returns (ghost served: seq<Action>)
      requires PartInv(part) && part.pc == Loop
      modifies this
      ensures PartInv(part) && part.pc == Loop && part.committed == []
      ensures part.input == if old(part.input) == [] then [] else old(part.input)[1..]
      ensures part.order ==
                Remaining(old(part.order), old(part.committed))
                + old(part.input)[..|old(part.input)| - |part.input|]
      ensures NobodyForgotten(part)
      ensures JustServed(old(part.place), part.place, served) && posts == old(posts) + PostsOf(served, aborted, exec)
      ensures var n := |old(posts)|;
              && |posts| == n + |served| && posts[..n] == old(posts)
              && forall i :: 0 <= i < |served| ==>
                   && posts[n + i].a == served[i]
                   && (posts[n + i].isError <==> !aborted(served[i]) && exec(served[i]) == Failed)
      ensures processed - old(processed) == |served|
      ensures (servedWaiting + servedInput) - (old(servedWaiting) + old(servedInput)) == |served|
    {
      hide PartInv, AfterDrain, Runnable, NobodyForgotten, Remaining, PostsOf, Woke, JustServed;
      ghost var place0, gone := part.place, part.committed;
      served := DrainCommits(aborted, exec);
      ghost var place1, posts1, input1 := part.place, posts, part.input;
      PcKeeps(part, Input);
      part := NoCommit(part);
      TakeOne(aborted, exec);
      IdleForgetsNobody(part);
      if input1 == [] {
        NothingTaken(place0, place1, gone, served);
      } else {
        OneTaken(place0, place1, part.place, gone, served, input1[0]);
        if posts != posts1 {
          PostsGrow(served, input1[0], aborted, exec);
          served := served + [input1[0]];
        }
      }
    }
  }

  // trx_acq_locks() succeeds exactly when no unreleased action of the partition conflicts
  lemma TakenIsReady(p: Part)
    requires PartInv(p) && p.pc == Input && p.input != []
    ensures var a, p' := p.input[0], TakeInput(p);
            && (p'.pc.Serve? <==> Runnable(p.order, a))
            && (p'.pc.Serve? ==> p'.pc == Serve([a]))
            && (!p'.pc.Serve? ==> p'.pc == Loop)
  {
    TakeInputKeeps(p);
    hide LockSide, Separate, QueueSide, OrderSide, Runnable, AcquireAll, RequestsOf;
    var a, p' := p.input[0], TakeInput(p);
    assert p'.order[..|p.order|] == p.order && p'.order[|p.order|] == a;
    ReadyIffRunnable(p', |p.order|);
  }

  lemma PrefixGrows(xs: seq<Action>, i: nat)
    requires i < |xs|
    ensures xs[i..][0] == xs[i] && xs[i..][1..] == xs[i + 1..] && xs[..i + 1] == xs[..i] + [xs[i]]
    ensures forall a :: a in xs[..i + 1] <==> a in xs[..i] || a == xs[i]
  {
  }

  lemma PostsOfNone(aborted: Action -> bool, exec: Action -> ExecResult)
    ensures PostsOf([], aborted, exec) == []
  {
  }

  lemma PostsOfMore(xs: seq<Action>, ys: seq<Action>, aborted: Action -> bool, exec: Action -> ExecResult)
    ensures PostsOf(xs + ys, aborted, exec) == PostsOf(xs, aborted, exec) + PostsOf(ys, aborted, exec)
  {
  }

  lemma PostsGrow(xs: seq<Action>, a: Action, aborted: Action -> bool, exec: Action -> ExecResult)
    ensures PostsOf(xs + [a], aborted, exec) == PostsOf(xs, aborted, exec) + [PostOf(a, aborted, exec)]
  {
  }

  // What draining a list of commits does to the places: the commits are released, and some
  // waiting actions have been served
  ghost predicate AfterDrain(place: Places, place': Places, gone: seq<Action>) {
    && place'.Keys == place.Keys
    && forall a :: a in place ==>
         && (a in gone ==> place'[a] == Released)
         && (a !in gone && place[a] == Waiting ==> place'[a] in {Waiting, Done})
         && (a !in gone && place[a] != Waiting ==> place'[a] == place[a])
  }

  lemma NotDrained(place: Places)
    ensures AfterDrain(place, place, []) && Woke(place, place, [])
  {
  }

  lemma AfterOneMore(place0: Places, place: Places, drained: seq<Action>, a: Action, ready: seq<Action>)
    requires AfterDrain(place0, place, drained) && At(place, a, InCommitted)
    requires forall b :: b in ready ==> At(place, b, Waiting)
    ensures AfterDrain(place0, ServedPlaces(DrainPlaces(place, a, ready), ready), drained + [a])
  {
  }

  // The actions that have been served meanwhile, once each: those that waited and are done
  ghost predicate Woke(place: Places, place': Places, woken: seq<Action>) {
    NoDup(woken) && forall a :: a in woken <==> At(place, a, Waiting) && At(place', a, Done)
  }

  // Whom a round has served, once each: those that waited or were in the input and are done
  ghost predicate JustServed(place: Places, place': Places, served: seq<Action>) {
    && NoDup(served)
    && forall a :: a in served <==> (At(place, a, Waiting) || At(place, a, InInput)) && At(place', a, Done)
  }

  lemma NothingTaken(place0: Places, place: Places, gone: seq<Action>, woken: seq<Action>)
    requires AfterDrain(place0, place, gone) && Woke(place0, place, woken)
    ensures JustServed(place0, place, woken)
  {
  }

  lemma OneTaken(
      place0: Places, place1: Places, place: Places, gone: seq<Action>, woken: seq<Action>, a: Action)
    requires AfterDrain(place0, place1, gone) && Woke(place0, place1, woken) && At(place1, a, InInput)
    requires a in place && place.Keys == place1.Keys && forall b :: b in place && b != a ==> place[b] == place1[b]
    requires place[a] in {Done, Waiting}
    ensures JustServed(place0, place, if place[a] == Done then woken + [a] else woken)
  {
    if place[a] == Done { NoDupConcat(woken, [a]); }
  }

  lemma WokeMore(
      place0: Places, place: Places, drained: seq<Action>, woken: seq<Action>, a: Action, ready: seq<Action>)
    requires AfterDrain(place0, place, drained) && At(place, a, InCommitted) && Woke(place0, place, woken)
    requires NoDup(ready) && forall b :: b in ready ==> At(place, b, Waiting)
    ensures Woke(place0, ServedPlaces(DrainPlaces(place, a, ready), ready), woken + ready)
  {
    NoDupConcat(woken, ready);
  }

  lemma NoDupConcat<T>(x: seq<T>, y: seq<T>)
    requires NoDup(x) && NoDup(y) && forall e :: e in x ==> e !in y
    ensures NoDup(x + y)
  {
    forall i, j | 0 <= i < j < |x + y| ensures (x + y)[i] != (x + y)[j] {
      assert (x + y)[i] in (if i < |x| then x else y);
    }
  }

  lemma TodoOnce(p: Part)
    requires PartInv(p)
    ensures NoDup(Todo(p.pc))
  {
  }

  lemma DrainShrinks(p: Part)
    requires PartInv(p) && CanDrain(p)
    ensures Drain(p).committed == p.committed[1..] && Drain(p).input == p.input
    ensures Remaining(Drain(p).order, p.committed[1..]) == Remaining(p.order, p.committed)
  {
    hide LockSide, OrderSide, QueueSide, Separate, OwnsAll, CanWakeAll, Wake, ReleaseKeys;
    DrainedOrder(p);
    RemainingOfRest(p.order, PositionOf(p.order, p.committed[0]), p.committed);
  }

  lemma DrainedOrder(p: Part)
    requires PartInv(p)
    ensures NoDup(p.order)
  {
    OrderNoDup(p.order);
  }

  lemma NoneServed(place: Places)
    ensures ServedPlaces(place, []) == place
  {
  }

  lemma PlacesGrow(place: Places, ready: seq<Action>, i: nat)
    requires i < |ready| && ready[i] in ServedPlaces(place, ready[..i])
    ensures ServedPlaces(place, ready[..i + 1]) == ServedPlaces(place, ready[..i])[ready[i] := Done]
  {
    PrefixGrows(ready, i);
  }

  lemma {:induction false} RemainingIs(order: seq<Action>, gone: seq<Action>)
    ensures forall a :: a in Remaining(order, gone) <==> a in order && a !in gone
    decreases |order|
  {
    if order != [] {
      RemainingIs(order[..|order| - 1], gone);
      assert order == order[..|order| - 1] + [order[|order| - 1]];
    }
  }

  lemma {:induction false} NothingGone(order: seq<Action>)
    ensures Remaining(order, []) == order
    decreases |order|
  {
    if order != [] {
      NothingGone(order[..|order| - 1]);
    }
  }

  // Taking one action out first makes no difference
  lemma {:induction false} RemainingOfRest(order: seq<Action>, i: nat, gone: seq<Action>)
    requires i < |order| && NoDup(order) && gone != [] && gone[0] == order[i]
    ensures Remaining(WithoutAt(order, i), gone[1..]) == Remaining(order, gone)
    decreases |order|
  {
    var n := |order| - 1;
    var init := order[..n];
    assert gone == [gone[0]] + gone[1..];
    if i == n {
      assert WithoutAt(order, i) == init;
      SameRemaining(init, gone, order[i]);
    } else {
      assert WithoutAt(order, i)[..n - 1] == WithoutAt(init, i);
      assert WithoutAt(order, i)[n - 1] == order[n];
      assert init[i] == order[i];
      RemainingOfRest(init, i, gone);
    }
  }

  lemma {:induction false} SameRemaining(order: seq<Action>, gone: seq<Action>, a: Action)
    requires gone != [] && gone[0] == a && a !in order
    ensures Remaining(order, gone[1..]) == Remaining(order, gone)
    decreases |order|
  {
    if order != [] {
      assert gone == [gone[0]] + gone[1..];
      assert order == order[..|order| - 1] + [order[|order| - 1]];
      SameRemaining(order[..|order| - 1], gone, a);
    }
  }
}
