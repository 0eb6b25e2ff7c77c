/** A few facts about sequences that the other modules share. */
module Sequences {

  ghost predicate NoDup<T>(xs: seq<T>) {
    forall i, j :: 0 <= i < j < |xs| ==> xs[i] != xs[j]
  }

  function WithoutAt<T>(xs: seq<T>, i: nat): seq<T>
    requires i < |xs|
  {
    xs[..i] + xs[i + 1..]
  }

  lemma Assoc<T>(x: seq<T>, y: seq<T>, z: seq<T>)
    ensures (x + y) + z == x + (y + z)
  {
  }

  lemma AppendOne<T>(x: seq<T>, y: seq<T>, e: T)
    ensures x + (y + [e]) == (x + y) + [e]
  {
  }

  lemma MoveHead<T>(x: seq<T>, y: seq<T>)
    requires y != []
    ensures x + y == (x + [y[0]]) + y[1..]
  {
  }

  lemma EmptyAppend<T>(x: seq<T>)
    ensures [] + x == x && x + [] == x
  {
  }

  lemma Around<T>(x: seq<T>, e: T, y: seq<T>)
    ensures var s := x + ([e] + y); s[..|x|] == x && s[|x|] == e && s[|x| + 1..] == y
  {
  }

  lemma WithoutLeft<T>(x: seq<T>, y: seq<T>, i: nat)
    requires i < |x|
    ensures WithoutAt(x, i) + y == WithoutAt(x + y, i)
  {
  }

  lemma InWithout<T>(xs: seq<T>, i: nat, x: T)
    requires i < |xs| && NoDup(xs)
    ensures x in WithoutAt(xs, i) <==> x in xs && x != xs[i]
  {
    assert xs == xs[..i] + [xs[i]] + xs[i + 1..];
  }

  lemma TailOf<T>(xs: seq<T>)
    requires xs != [] && NoDup(xs)
    ensures xs[0] !in xs[1..]
    ensures forall x :: x != xs[0] ==> (x in xs <==> x in xs[1..])
  {
    assert xs == [xs[0]] + xs[1..];
  }
}
