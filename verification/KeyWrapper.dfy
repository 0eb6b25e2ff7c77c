/** Keys of the lock map: vectors of fields compared field by field. */
module KeyWrappers {

  datatype Key = Key(fields: seq<int>)

  // The position of the first difference, or the length of the left key
  function FirstDiff(a: Key, b: Key): (i: nat)
    requires |a.fields| <= |b.fields|
    ensures i <= |a.fields|
    ensures forall j :: 0 <= j < i ==> a.fields[j] == b.fields[j]
    ensures i < |a.fields| ==> a.fields[i] != b.fields[i]
    decreases |a.fields|
  {
    if a.fields == [] || a.fields[0] != b.fields[0] then 0
    else
      var i := FirstDiff(Key(a.fields[1..]), Key(b.fields[1..]));
      assert forall j :: 0 < j <= i && j < |a.fields| ==>
        a.fields[j] == a.fields[1..][j - 1] && b.fields[j] == b.fields[1..][j - 1];
      1 + i
  }

  // Only the left key's length is looked at, as the asserts of the operators allow
  predicate Less(a: Key, b: Key)
    requires |a.fields| <= |b.fields|
  {
    var i := FirstDiff(a, b);
    i < |a.fields| && a.fields[i] < b.fields[i]
  }

  predicate Equal(a: Key, b: Key)
    requires |a.fields| <= |b.fields|
  {
    FirstDiff(a, b) == |a.fields|
  }

  predicate LessOrEqual(a: Key, b: Key)
    requires |a.fields| <= |b.fields|
  {
    Less(a, b) || Equal(a, b)
  }

  /** The comparison is the lexicographic one: the first field in which the keys differ, if
      there is one within the left key, decides. */
  lemma LessIsLexicographic(a: Key, b: Key)
    requires |a.fields| <= |b.fields|
    ensures Less(a, b) <==>
              exists i :: 0 <= i < |a.fields| && a.fields[i] < b.fields[i] && a.fields[..i] == b.fields[..i]
  {
    var i := FirstDiff(a, b);
    assert a.fields[..i] == b.fields[..i];
    if exists j :: 0 <= j < |a.fields| && a.fields[j] < b.fields[j] && a.fields[..j] == b.fields[..j] {
      var j :| 0 <= j < |a.fields| && a.fields[j] < b.fields[j] && a.fields[..j] == b.fields[..j];
      assert forall m :: 0 <= m < j ==> a.fields[m] == a.fields[..j][m] == b.fields[..j][m] == b.fields[m];
    }
  }

  /** Among keys of one length the comparison is a strict total order, and two keys are the
      same map entry (neither is less) exactly when they are the same key. */
  lemma LessIsStrictTotalOrder(a: Key, b: Key, c: Key)
    requires |a.fields| == |b.fields| == |c.fields|
    ensures !Less(a, a)
    ensures Less(a, b) && Less(b, c) ==> Less(a, c)
    ensures !Less(a, b) && !Less(b, a) <==> a == b
    ensures LessOrEqual(a, b) <==> !Less(b, a)
    ensures Equal(a, b) <==> a == b
  {
    var ab, ba, bc, ac := FirstDiff(a, b), FirstDiff(b, a), FirstDiff(b, c), FirstDiff(a, c);
    assert ab == ba;
    if ab == |a.fields| {
      assert a.fields == b.fields;
    }
    if Less(a, b) && Less(b, c) {
      var m := if ab < bc then ab else bc;
      assert a.fields[m] < c.fields[m];
      assert ac == m;
    }
  }

  /** With mixed lengths it is not an order that separates keys: a proper prefix is neither
      less than nor different from its extension, so exactly the keys of equal length are
      told apart. */
  lemma EqualIsPrefix(a: Key, b: Key)
    requires |a.fields| <= |b.fields|
    ensures Equal(a, b) <==> a.fields <= b.fields
    ensures Equal(a, b) ==> (a == b <==> |a.fields| == |b.fields|)
  {
    var i := FirstDiff(a, b);
    assert a.fields <= b.fields <==> forall j :: 0 <= j < |a.fields| ==> a.fields[j] == b.fields[j];
  }

  // key_wrapper_t::operator<
  method IsLess(a: Key, b: Key) returns (less: bool)
    requires |a.fields| <= |b.fields|
    ensures less <==> Less(a, b)
    ensures less <==>
              exists i :: 0 <= i < |a.fields| && a.fields[i] < b.fields[i] && a.fields[..i] == b.fields[..i]
  {
    LessIsLexicographic(a, b);
    var i := 0;
    while i < |a.fields|
      invariant 0 <= i <= |a.fields|
      invariant forall j :: 0 <= j < i ==> a.fields[j] == b.fields[j]
    {
      if a.fields[i] != b.fields[i] {
        assert FirstDiff(a, b) == i;
        return a.fields[i] < b.fields[i];
      }
      i := i + 1;
    }
    assert FirstDiff(a, b) == |a.fields|;
    return false;
  }

  // key_wrapper_t::operator==
  method IsEqual(a: Key, b: Key) returns (equal: bool)
    requires |a.fields| <= |b.fields|
    ensures equal <==> a.fields <= b.fields
  {
    for i := 0 to |a.fields|
      invariant forall j :: 0 <= j < i ==> a.fields[j] == b.fields[j]
    {
      if a.fields[i] != b.fields[i] {
        return false;
      }
    }
    return true;
  }
}
