/** The countdown of a rendezvous point: posters that race on one word with compare-and-swap,
    until the last one finishes it with a plain store. */
module Countdowns {

  const CD_ERROR: nat := 1
  const CD_NUMBER: nat := 2

  // ---------------------------------------------------------------------------
  // All interleavings of the posters
  // ---------------------------------------------------------------------------

  // A poster before its first read, with the value it has last seen, or back with an answer
  datatype Poster = Fresh | Seen(old_: nat) | Done(won: bool)

  datatype Race = Race(state: nat, posters: seq<Poster>)

  function Start(n: nat): Race { Race(n * CD_NUMBER, seq(n, _ => Fresh)) }

  function Become(c: Race, i: nat, p: Poster): Race
    requires i < |c.posters|
  {
    c.(posters := c.posters[i := p])
  }

  // What the code asserts when poster i takes its next step
  predicate Asserts(c: Race, i: nat, isError: bool)
    requires i < |c.posters|
  {
    match c.posters[i]
    case Fresh => true
    case Done(_) => true
    case Seen(old_) =>
      if old_ >= 2 * CD_NUMBER then c.state == old_ ==> isError || old_ - CD_NUMBER >= CD_NUMBER
      else old_ == CD_ERROR || old_ == CD_NUMBER
  }

  // One step of poster i: a read, a compare-and-swap, a return, or the final plain store
  function Step(c: Race, i: nat, isError: bool): Race
    requires i < |c.posters|
  {
    match c.posters[i]
    case Fresh => Become(c, i, Seen(c.state))
    case Done(_) => c
    case Seen(old_) =>
      if old_ >= 2 * CD_NUMBER then
        if c.state == old_ then
          Become(c, i, Done(isError)).(state := if isError then CD_ERROR else old_ - CD_NUMBER)
        else Become(c, i, Seen(c.state))
      else if old_ == CD_ERROR then Become(c, i, Done(false))
      else Become(c, i, Done(true)).(state := if isError then CD_ERROR else 0)
  }

  // A schedule says who moves next
  function Run(c: Race, errors: seq<bool>, schedule: seq<nat>): Race
    requires |errors| == |c.posters| && forall k :: 0 <= k < |schedule| ==> schedule[k] < |errors|
    decreases |schedule|
  {
    if schedule == [] then c
    else Run(Step(c, schedule[0], errors[schedule[0]]), errors, schedule[1..])
  }

  function Out(posters: seq<Poster>): nat {
    if posters == [] then 0 else (if posters[0].Done? then 0 else 1) + Out(posters[1..])
  }

  function Winners(posters: seq<Poster>): nat {
    if posters == [] then 0 else (if posters[0] == Done(true) then 1 else 0) + Winners(posters[1..])
  }

  lemma {:induction false} CountsAfter(posters: seq<Poster>, i: nat, p: Poster)
    requires i < |posters| && !posters[i].Done?
    ensures Out(posters[i := p]) == Out(posters) - if p.Done? then 1 else 0
    ensures Winners(posters[i := p]) == Winners(posters) + if p == Done(true) then 1 else 0
  {
    if i == 0 {
      assert posters[i := p][1..] == posters[1..];
    } else {
      assert posters[i := p][1..] == posters[1..][i - 1 := p];
      CountsAfter(posters[1..], i - 1, p);
    }
  }

  // Nobody is out besides poster i
  ghost predicate OnlyOut(posters: seq<Poster>, i: nat) {
    forall j :: 0 <= j < |posters| && !posters[j].Done? ==> j == i
  }

  lemma {:induction false} OneOut(posters: seq<Poster>, i: nat)
    requires i < |posters| && !posters[i].Done?
    ensures Out(posters) >= 1
    ensures Out(posters) == 1 <==> OnlyOut(posters, i)
  {
    if i == 0 {
      NobodyOut(posters[1..]);
      assert forall j :: 0 < j < |posters| ==> posters[j] == posters[1..][j - 1];
    } else {
      OneOut(posters[1..], i - 1);
      assert forall j :: 0 < j < |posters| ==> posters[j] == posters[1..][j - 1];
      assert posters[0].Done? && OnlyOut(posters[1..], i - 1) ==> OnlyOut(posters, i);
      if OnlyOut(posters, i) {
        forall j | 0 <= j < |posters[1..]| && !posters[1..][j].Done? ensures j == i - 1 {
          assert !posters[j + 1].Done?;
        }
      }
    }
  }

  lemma {:induction false} NobodyOut(posters: seq<Poster>)
    ensures Out(posters) == 0 <==> forall j :: 0 <= j < |posters| ==> posters[j].Done?
  {
    if posters != [] {
      NobodyOut(posters[1..]);
      assert forall j :: 0 < j < |posters| ==> posters[j] == posters[1..][j - 1];
    }
  }

  // What a poster may have seen: a value that the word has had since, never one that makes
  // it think it is the last while others are out
  ghost predicate SeenOk(c: Race, p: Poster) {
    p.Seen? ==>
      if c.state == CD_ERROR then p.old_ == CD_ERROR || (p.old_ >= 2 * CD_NUMBER && p.old_ % 2 == 0)
      else p.old_ >= c.state && p.old_ % 2 == 0 && (p.old_ == CD_NUMBER ==> c.state == CD_NUMBER)
  }

  ghost predicate ErrorReported(c: Race, errors: seq<bool>)
    requires |errors| == |c.posters|
  {
    exists i :: 0 <= i < |errors| && errors[i] && c.posters[i].Done?
  }

  /** The invariant of the race: the word counts the posters that are out, and nobody has won
      yet; or an error has been reported and has won; or all are back and the last has won. */
  ghost predicate Inv(c: Race, errors: seq<bool>) {
    && |errors| == |c.posters|
    && (forall i :: 0 <= i < |c.posters| ==> SeenOk(c, c.posters[i]))
    && (if c.state == CD_ERROR then ErrorReported(c, errors) && Winners(c.posters) == 1
        else
          && c.state == CD_NUMBER * Out(c.posters) && !ErrorReported(c, errors)
          && Winners(c.posters) == if c.posters != [] && c.state == 0 then 1 else 0)
  }

  lemma {:induction false} StartCounts(n: nat)
    ensures Out(Start(n).posters) == n && Winners(Start(n).posters) == 0
  {
    if n > 0 {
      assert Start(n).posters[1..] == Start(n - 1).posters;
      StartCounts(n - 1);
    }
  }

  lemma StartInv(n: nat, errors: seq<bool>)
    requires |errors| == n
    ensures Inv(Start(n), errors)
  {
    StartCounts(n);
  }

  lemma StepInv(c: Race, i: nat, errors: seq<bool>)
    requires Inv(c, errors) && i < |errors|
    ensures Asserts(c, i, errors[i]) && Inv(Step(c, i, errors[i]), errors)
  {
    var p := c.posters[i];
    if !p.Done? {
      OneOut(c.posters, i);
      var c' := Step(c, i, errors[i]);
      CountsAfter(c.posters, i, c'.posters[i]);
      StepReports(c, i, errors);
    }
  }

  lemma StepReports(c: Race, i: nat, errors: seq<bool>)
    requires |errors| == |c.posters| && i < |errors| && !c.posters[i].Done?
    ensures var c' := Step(c, i, errors[i]);
            ErrorReported(c', errors) <==> ErrorReported(c, errors) || (errors[i] && c'.posters[i].Done?)
  {
    var c' := Step(c, i, errors[i]);
    assert forall j :: 0 <= j < |errors| && j != i ==> c'.posters[j] == c.posters[j];
  }

  /** Who wins: a step makes a poster win exactly when it reports the first error, or when it
      is the last one out and no error has been reported. */
  lemma WhoWins(c: Race, i: nat, errors: seq<bool>)
    requires Inv(c, errors) && i < |errors| && !c.posters[i].Done? && Step(c, i, errors[i]).posters[i].Done?
    ensures Step(c, i, errors[i]).posters[i].won <==>
              !ErrorReported(c, errors) && (errors[i] || OnlyOut(c.posters, i))
  {
    OneOut(c.posters, i);
  }

  lemma {:induction false} RunInv(c: Race, errors: seq<bool>, schedule: seq<nat>)
    requires Inv(c, errors) && forall k :: 0 <= k < |schedule| ==> schedule[k] < |errors|
    ensures Inv(Run(c, errors, schedule), errors)
    decreases |schedule|
  {
    if schedule != [] {
      StepInv(c, schedule[0], errors);
      RunInv(Step(c, schedule[0], errors[schedule[0]]), errors, schedule[1..]);
    }
  }

  /** Under every interleaving of n posters that start at count n: no assert fails at the next
      step of anybody; at most one post returns true, and exactly one once all are back. */
  lemma ExactlyOneWins(errors: seq<bool>, schedule: seq<nat>)
    requires forall k :: 0 <= k < |schedule| ==> schedule[k] < |errors|
    ensures var c := Run(Start(|errors|), errors, schedule);
            && |c.posters| == |errors|
            && (forall i :: 0 <= i < |errors| ==> Asserts(c, i, errors[i]))
            && Winners(c.posters) <= 1
            && (errors != [] && (forall i :: 0 <= i < |errors| ==> c.posters[i].Done?) ==> Winners(c.posters) == 1)
  {
    StartInv(|errors|, errors);
    RunInv(Start(|errors|), errors, schedule);
    var c := Run(Start(|errors|), errors, schedule);
    forall i | 0 <= i < |errors| ensures Asserts(c, i, errors[i]) {
      StepInv(c, i, errors);
    }
    NobodyOut(c.posters);
  }

  /** remaining() is the number of posters that are out, or -1 once an error has won. */
  function Remaining(state: nat): int { if state == CD_ERROR then -1 else state / CD_NUMBER }

  lemma RemainingIsOut(c: Race, errors: seq<bool>)
    requires Inv(c, errors)
    ensures Remaining(c.state) == if ErrorReported(c, errors) then -1 else Out(c.posters)
  {
  }

  // ---------------------------------------------------------------------------
  // The loop of post()
  // ---------------------------------------------------------------------------

  class Countdown {
    var state: nat

    constructor (count: nat)
      ensures state == count * CD_NUMBER
    {
      state := count * CD_NUMBER;
    }

    method Reset(newCount: nat)
      modifies this
      ensures state == newCount * CD_NUMBER
    {
      state := newCount * CD_NUMBER;
    }

    // Compare-and-swap, just before which others may have posted
    method Cas(oldValue: nat, newValue: nat, others: nat) returns (cur: nat)
      requires others * CD_NUMBER <= state
      modifies this
      ensures cur == old(state) - others * CD_NUMBER
      ensures state == if cur == oldValue then newValue else cur
    {
      state := state - others * CD_NUMBER;
      cur := state;
      if cur == oldValue {
        state := newValue;
      }
    }

    /** post() among others: others[k] posts slip in before the k-th compare-and-swap.  However
        often it has to try again, it takes exactly one off the count, and it wins when it is
        the last or reports the error. */
    method Post(isError: bool, others: seq<nat>) returns (won: bool, slipped: nat)
      requires state == CD_ERROR || (state % CD_NUMBER == 0 && Sum(others) < state / CD_NUMBER)
      modifies this
      ensures old(state) == CD_ERROR ==> !won && state == CD_ERROR
      ensures old(state) != CD_ERROR ==>
                && slipped <= Sum(others)
                && state == (if isError then CD_ERROR else old(state) - (slipped + 1) * CD_NUMBER)
                && (won <==> isError || state == 0)
    {
      slipped := 0;
      var k := 0;
      var oldValue := state;
      while oldValue >= 2 * CD_NUMBER
        invariant k <= |others| && state == oldValue
        invariant old(state) == CD_ERROR ==> state == CD_ERROR
        invariant old(state) != CD_ERROR ==> state == old(state) - slipped * CD_NUMBER && state % CD_NUMBER == 0
        invariant old(state) != CD_ERROR ==> slipped + Sum(others[k..]) == Sum(others)
        decreases oldValue
      {
        var now := if k < |others| then others[k] else 0;
        var newValue := if isError then CD_ERROR else oldValue - CD_NUMBER;
        var curValue := Cas(oldValue, newValue, now);
        k, slipped := if k < |others| then k + 1 else k, slipped + now;
        if curValue == oldValue {
          assert isError || newValue >= CD_NUMBER;
          return isError, slipped;
        }
        oldValue := curValue;
      }
      if oldValue == CD_ERROR {
        return false, slipped;
      }
      assert oldValue == CD_NUMBER;
      state := if isError then CD_ERROR else 0;
      won := true;
    }
  }

  function Sum(xs: seq<nat>): nat { if xs == [] then 0 else xs[0] + Sum(xs[1..]) }
}
