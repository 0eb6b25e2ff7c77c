/** What kth_biggest() is for, and when it does it: the k-th biggest of a sequence is defined by
    counting, and the list that the code keeps is compared with the list of the k biggest. */
module KthBiggests {
  import opened PoolAllocs

  // How many of the sizes are bigger than a bound
  ghost function Above(sizes: seq<int>, bound: int): (n: nat)
    ensures n <= |sizes|
  {
    if sizes == [] then 0
    else Above(sizes[..|sizes| - 1], bound) + if sizes[|sizes| - 1] > bound then 1 else 0
  }

  /** The k-th biggest: fewer than k are bigger than it, and at least k are not smaller. */
  ghost predicate IsKth(x: int, sizes: seq<int>, k: nat) { Above(sizes, x) < k <= Above(sizes, x - 1) }

  /** A sorted list of the k biggest sizes: of everything above any bound it has as many as
      there are, up to k. */
  ghost predicate HoldsBiggest(top: seq<int>, sizes: seq<int>, k: nat) {
    |top| == k && Sorted(top) && forall bound :: Above(top, bound) == Min(k, Above(sizes, bound))
  }

  function Min(x: nat, y: nat): nat { if x <= y then x else y }

  ghost predicate Descending(sizes: seq<int>, n: nat)
    requires n <= |sizes|
  {
    forall i :: 0 < i < n ==> sizes[i] < sizes[i - 1]
  }

  // ---------------------------------------------------------------------------
  // Counting
  // ---------------------------------------------------------------------------

  lemma AbovePush(sizes: seq<int>, x: int, bound: int)
    ensures Above(sizes + [x], bound) == Above(sizes, bound) + if x > bound then 1 else 0
  {
    assert (sizes + [x])[..|sizes|] == sizes;
  }

  lemma {:induction false} AboveConcat(x: seq<int>, y: seq<int>, bound: int)
    ensures Above(x + y, bound) == Above(x, bound) + Above(y, bound)
    decreases |y|
  {
    if y == [] {
      assert x + y == x;
    } else {
      var init, last := y[..|y| - 1], y[|y| - 1];
      assert x + y == (x + init) + [last];
      AbovePush(x + init, last, bound);
      AboveConcat(x, init, bound);
    }
  }

  lemma {:induction false} AllAbove(sizes: seq<int>, bound: int)
    ensures Above(sizes, bound) == |sizes| <==> forall i :: 0 <= i < |sizes| ==> sizes[i] > bound
    decreases |sizes|
  {
    if sizes != [] {
      AllAbove(sizes[..|sizes| - 1], bound);
    }
  }

  lemma {:induction false} AboveFalls(sizes: seq<int>, x: int, y: int)
    requires x <= y
    ensures Above(sizes, y) <= Above(sizes, x)
    decreases |sizes|
  {
    if sizes != [] {
      AboveFalls(sizes[..|sizes| - 1], x, y);
    }
  }

  /** There is at most one k-th biggest. */
  lemma KthIsUnique(x: int, y: int, sizes: seq<int>, k: nat)
    requires IsKth(x, sizes, k) && IsKth(y, sizes, k)
    ensures x == y
  {
    if x < y {
      AboveFalls(sizes, x, y - 1);
    } else if y < x {
      AboveFalls(sizes, y, x - 1);
    }
  }

  /** The last of the k biggest is the k-th biggest. */
  lemma LastIsKth(top: seq<int>, sizes: seq<int>, k: nat)
    requires HoldsBiggest(top, sizes, k) && k > 0
    ensures IsKth(top[k - 1], sizes, k)
  {
    var last := top[k - 1];
    AllAbove(top, last);
    AllAbove(top, last - 1);
    assert Above(top, last) == Min(k, Above(sizes, last));
    assert Above(top, last - 1) == Min(k, Above(sizes, last - 1));
  }

  // ---------------------------------------------------------------------------
  // One more size
  // ---------------------------------------------------------------------------

  lemma {:induction false} InsertAtEnd(top: seq<int>, x: int)
    requires top != [] && Sorted(top)
    ensures InsertAt(top, x) == |top| <==> x < top[|top| - 1]
  {
  }

  // A size that is not too small replaces the last of the list
  lemma ReplaceCounts(top: seq<int>, k: nat, x: int, bound: int)
    requires 0 < |top| <= k && Sorted(top) && x >= top[|top| - 1]
    ensures |Keep(top, k, x)| == |top|
    ensures Above(Keep(top, k, x), bound) ==
              Above(top, bound) + (if x > bound then 1 else 0) - (if top[|top| - 1] > bound then 1 else 0)
  {
    hide Above;
    InsertAtEnd(top, x);
    var i, n := InsertAt(top, x), |top|;
    var kept := Keep(top, k, x);
    assert kept == top[..i] + ([x] + top[i..n - 1]);
    assert top == top[..i] + (top[i..n - 1] + [top[n - 1]]);
    AboveConcat(top[..i], [x] + top[i..n - 1], bound);
    AboveConcat([x], top[i..n - 1], bound);
    AboveConcat(top[..i], top[i..n - 1] + [top[n - 1]], bound);
    AbovePush(top[i..n - 1], top[n - 1], bound);
    AbovePush([], x, bound);
    assert [] + [x] == [x] && Above([], bound) == 0 by { AboveNone(bound); }
  }

  lemma AboveNone(bound: int)
    ensures Above([], bound) == 0
  {
  }

  // A full list of the k biggest stays one
  lemma FullStep(top: seq<int>, sizes: seq<int>, k: nat, x: int)
    requires k > 0 && HoldsBiggest(top, sizes, k)
    ensures HoldsBiggest(Keep(top, k, x), sizes + [x], k)
  {
    hide Above;
    var last, kept := top[k - 1], Keep(top, k, x);
    InsertAtEnd(top, x);
    KeepSorted(top, k, x);
    forall bound ensures |kept| == k && Above(kept, bound) == Min(k, Above(sizes + [x], bound)) {
      assert Above(top, bound) == Min(k, Above(sizes, bound));
      AbovePush(sizes, x, bound);
      AllAbove(top, bound);
      if x >= last { ReplaceCounts(top, k, x, bound); }
    }
  }

  // While the sizes fall, the list is all of them
  lemma {:induction false} FallingAreKept(sizes: seq<int>, k: nat)
    requires sizes != [] && |sizes| <= k && Descending(sizes, |sizes|)
    ensures Kept(sizes, k) == sizes && Sorted(sizes)
    decreases |sizes|
  {
    if |sizes| > 1 {
      var init, last := sizes[..|sizes| - 1], sizes[|sizes| - 1];
      FallingAreKept(init, k);
      InsertAtEnd(init, last);
      assert sizes == init + [last];
    }
  }

  // ---------------------------------------------------------------------------
  // When kth_biggest() is right
  // ---------------------------------------------------------------------------

  /** If the first k sizes fall strictly, the list holds the k biggest, whatever follows. */
  lemma {:induction false} FallingIsRight(sizes: seq<int>, k: nat)
    requires sizes != [] && k > 0 && Descending(sizes, Min(k, |sizes|))
    ensures HoldsBiggest(Kept(sizes, k), sizes, Min(k, |sizes|))
    decreases |sizes|
  {
    hide Keep, Kept, Above;
    if |sizes| <= k {
      FallingAreKept(sizes, k);
      forall bound ensures Above(sizes, bound) <= |sizes| {
      }
    } else {
      var init, last := sizes[..|sizes| - 1], sizes[|sizes| - 1];
      assert sizes == init + [last];
      FallingIsRight(init, k);
      KeptAppend(init, k, last);
      FullStep(Kept(init, k), init, k, last);
    }
  }

  ghost predicate AlwaysHolds(sizes: seq<int>, k: nat)
    requires k > 0
  {
    forall m :: 1 <= m <= |sizes| ==> HoldsBiggest(Kept(sizes[..m], k), sizes[..m], Min(k, m))
  }

  // Only sizes that fall make the list grow with every one of them
  lemma {:induction false} GrowingIsFalling(sizes: seq<int>, k: nat, n: nat)
    requires 0 < n <= |sizes| && n <= k && AlwaysHolds(sizes, k)
    ensures Descending(sizes, n) && Kept(sizes[..n], k) == sizes[..n]
    decreases n
  {
    hide HoldsBiggest, Keep, Kept;
    if n == 1 {
      KeptOne(sizes[..1], k);
    } else {
      GrowingIsFalling(sizes, k, n - 1);
      var init, last := sizes[..n - 1], sizes[n - 1];
      assert sizes[..n] == init + [last];
      KeptAppend(init, k, last);
      KeepLength(init, k, last);
      HoldsLength(Kept(sizes[..n], k), sizes[..n], Min(k, n));
      FallingAreKept(init, k);
      InsertAtEnd(init, last);
      KeepAtEnd(init, k, last);
    }
  }

  lemma HoldsLength(top: seq<int>, sizes: seq<int>, k: nat)
    requires HoldsBiggest(top, sizes, k)
    ensures |top| == k
  {
  }

  lemma KeepAtEnd(top: seq<int>, k: nat, x: int)
    requires 0 < |top| < k && InsertAt(top, x) == |top|
    ensures Keep(top, k, x) == top + [x]
  {
  }

  /** The exact condition: the list holds the k biggest of all sizes so far, at every size, if
      and only if the first k sizes fall strictly. */
  lemma RightIffFalling(sizes: seq<int>, k: nat)
    requires sizes != [] && k > 0
    ensures AlwaysHolds(sizes, k) <==> Descending(sizes, Min(k, |sizes|))
  {
    if AlwaysHolds(sizes, k) {
      GrowingIsFalling(sizes, k, Min(k, |sizes|));
    }
    if Descending(sizes, Min(k, |sizes|)) {
      forall m | 1 <= m <= |sizes| ensures HoldsBiggest(Kept(sizes[..m], k), sizes[..m], Min(k, m)) {
        FallingIsRight(sizes[..m], k);
      }
    }
  }

  // The answer that the code would give after each size
  ghost predicate AlwaysAnswers(sizes: seq<int>, k: nat)
    requires k > 0
  {
    forall m :: 1 <= m <= |sizes| ==>
      var top := Kept(sizes[..m], k); IsKth(top[|top| - 1], sizes[..m], Min(k, m))
  }

  // A size that does not fall makes the answer wrong at once, if no size comes twice
  lemma RiseIsWrong(sizes: seq<int>, x: int, k: nat)
    requires sizes != [] && |sizes| < k && Descending(sizes, |sizes|) && x > sizes[|sizes| - 1]
    ensures var top := Kept(sizes + [x], k); !IsKth(top[|top| - 1], sizes + [x], |sizes| + 1)
  {
    hide Kept, Keep, Above;
    var last, n := sizes[|sizes| - 1], |sizes|;
    FallingAreKept(sizes, k);
    KeptAppend(sizes, k, x);
    InsertAtEnd(sizes, x);
    KeepLength(sizes, k, x);
    KeepAt(sizes, k, x, n - 1);
    var answer := Keep(sizes, k, x)[n - 1];
    assert answer > last;
    AllAbove(sizes + [x], answer - 1);
    assert (sizes + [x])[n - 1] == last;
  }

  lemma {:induction false} AnswersFall(sizes: seq<int>, k: nat, n: nat)
    requires 0 < n <= |sizes| && n <= k && AlwaysAnswers(sizes, k)
    requires forall i, j :: 0 <= i < j < |sizes| ==> sizes[i] != sizes[j]
    ensures Descending(sizes, n)
    decreases n
  {
    hide Kept, IsKth;
    if n > 1 {
      AnswersFall(sizes, k, n - 1);
      var init, x := sizes[..n - 1], sizes[n - 1];
      assert sizes[..n] == init + [x];
      if x > init[n - 2] { RiseIsWrong(init, x, k); }
    }
  }

  /** For distinct sizes the same is exact for the answers themselves. */
  lemma AnswersIffFalling(sizes: seq<int>, k: nat)
    requires sizes != [] && k > 0
    requires forall i, j :: 0 <= i < j < |sizes| ==> sizes[i] != sizes[j]
    ensures AlwaysAnswers(sizes, k) <==> Descending(sizes, Min(k, |sizes|))
  {
    if AlwaysAnswers(sizes, k) {
      AnswersFall(sizes, k, Min(k, |sizes|));
    }
    if Descending(sizes, Min(k, |sizes|)) {
      forall m | 1 <= m <= |sizes|
        ensures var top := Kept(sizes[..m], k); IsKth(top[|top| - 1], sizes[..m], Min(k, m))
      {
        FallingIsRight(sizes[..m], k);
        LastIsKth(Kept(sizes[..m], k), sizes[..m], Min(k, m));
      }
    }
  }

  /** So kth_biggest() answers with the k-th biggest if the first k sizes fall strictly, where k
      is a fifth of their number, rounded up; in particular whenever k is 1, which is for up to
      ADJUST_GOAL sizes. */
  lemma ChosenIsKth(sizes: seq<int>)
    requires sizes != [] && Descending(sizes, KOf(|sizes|))
    ensures IsKth(Chosen(sizes), sizes, KOf(|sizes|)) && 5 * (KOf(|sizes|) - 1) < |sizes| <= 5 * KOf(|sizes|)
  {
    var k := KOf(|sizes|);
    FallingIsRight(sizes, k);
    LastIsKth(Kept(sizes, k), sizes, k);
  }

  lemma FewAreRight(sizes: seq<int>)
    requires 0 < |sizes| <= ADJUST_GOAL
    ensures KOf(|sizes|) == 1 && IsKth(Chosen(sizes), sizes, 1)
  {
    ChosenIsKth(sizes);
  }

  /** And it is wrong on every sequence of more sizes than that in ascending order. */
  lemma AscendingIsWrong(sizes: seq<int>)
    requires |sizes| > ADJUST_GOAL && forall i, j :: 0 <= i < j < |sizes| ==> sizes[i] < sizes[j]
    ensures Chosen(sizes) == sizes[|sizes| - 1] && !IsKth(Chosen(sizes), sizes, KOf(|sizes|))
  {
    hide Kept, Above;
    var n, biggest := |sizes|, sizes[|sizes| - 1];
    assert KOf(n) >= 2;
    AscendingChoosesBiggest(sizes, KOf(n));
    var init := sizes[..n - 1];
    assert sizes == init + [biggest];
    AbovePush(init, biggest, biggest - 1);
    NoneAbove(init, biggest - 1);
  }

  lemma {:induction false} NoneAbove(sizes: seq<int>, bound: int)
    requires forall i :: 0 <= i < |sizes| ==> sizes[i] <= bound
    ensures Above(sizes, bound) == 0
    decreases |sizes|
  {
    if sizes != [] {
      NoneAbove(sizes[..|sizes| - 1], bound);
    }
  }

  /** Six sizes on which it is wrong: it answers with 56, the second biggest is 48. */
  lemma SixAreWrong()
    ensures var sizes := [16, 24, 32, 40, 48, 56];
            KOf(6) == 2 && Chosen(sizes) == 56 && IsKth(48, sizes, 2) && !IsKth(56, sizes, 2)
  {
    hide Kept, Keep, Above, Chosen;
    var sizes := [16, 24, 32, 40, 48, 56];
    AscendingIsWrong(sizes);
    var five := [16, 24, 32, 40, 48];
    assert sizes == five + [56] && five == [16, 24, 32, 40] + [48];
    NoneAbove([16, 24, 32, 40], 47);
    AbovePush([16, 24, 32, 40], 48, 47);
    AbovePush(five, 56, 47);
    NoneAbove(five, 48);
    AbovePush(five, 56, 48);
  }
}
