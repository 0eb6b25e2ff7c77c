/** A hash map of chained rings: each bucket is a ring around its table entry, and inserting
    puts a node at the front of its chain without looking for duplicates. */
module StaticHashMaps {
  import opened Sequences
  import opened StaticLists

  datatype Entry<+Key, +Value> = Entry(key: Key, value: Value)

  // The value of an entry, if it has this key
  function IfKey<Key(==), Value>(e: Entry<Key, Value>, k: Key): seq<Value> { if e.key == k then [e.value] else [] }

  // The bindings of one key in a chain, the newest first
  function Stack<Key(==), Value>(chain: seq<Entry<Key, Value>>, k: Key): seq<Value> {
    if chain == [] then [] else IfKey(chain[0], k) + Stack(chain[1..], k)
  }

  lemma {:induction false} StackConcat<Key, Value>(x: seq<Entry<Key, Value>>, y: seq<Entry<Key, Value>>, k: Key)
    ensures Stack(x + y, k) == Stack(x, k) + Stack(y, k)
    decreases |x|
  {
    hide IfKey;
    if x == [] {
      assert x + y == y;
    } else {
      assert (x + y)[0] == x[0] && (x + y)[1..] == x[1..] + y;
      StackConcat(x[1..], y, k);
      Assoc(IfKey(x[0], k), Stack(x[1..], k), Stack(y, k));
    }
  }

  lemma {:induction false} NoneInPrefix<Key, Value>(chain: seq<Entry<Key, Value>>, k: Key)
    requires forall i :: 0 <= i < |chain| ==> chain[i].key != k
    ensures Stack(chain, k) == []
    decreases |chain|
  {
    if chain != [] {
      NoneInPrefix(chain[1..], k);
    }
  }

  lemma StackPush<Key, Value>(e: Entry<Key, Value>, chain: seq<Entry<Key, Value>>, k: Key)
    ensures Stack([e] + chain, k) == IfKey(e, k) + Stack(chain, k)
  {
    assert ([e] + chain)[1..] == chain;
  }

  // The stack of a chain around its i-th entry
  lemma StackAround<Key, Value>(chain: seq<Entry<Key, Value>>, i: nat, k: Key)
    requires i < |chain|
    ensures Stack(chain, k) == Stack(chain[..i], k) + (IfKey(chain[i], k) + Stack(chain[i + 1..], k))
    ensures Stack(chain[..i] + chain[i + 1..], k) == Stack(chain[..i], k) + Stack(chain[i + 1..], k)
  {
    hide IfKey;
    assert chain == chain[..i] + chain[i..];
    assert chain[i..][0] == chain[i] && chain[i..][1..] == chain[i + 1..];
    StackConcat(chain[..i], chain[i..], k);
    StackConcat(chain[..i], chain[i + 1..], k);
  }

  /** The first entry of a key in its chain is the newest binding; taking it out pops the
      stack of its key and leaves those of all other keys alone. */
  lemma FirstIsTop<Key, Value>(chain: seq<Entry<Key, Value>>, i: nat, k: Key, l: Key)
    requires i < |chain| && chain[i].key == k && forall j :: 0 <= j < i ==> chain[j].key != k
    ensures Stack(chain, k) == [chain[i].value] + Stack(chain[..i] + chain[i + 1..], k)
    ensures l != k ==> Stack(chain[..i] + chain[i + 1..], l) == Stack(chain, l)
  {
    hide Stack;
    StackAround(chain, i, k);
    StackAround(chain, i, l);
    NoneInPrefix(chain[..i], k);
  }

  twostate lemma Untouched<T(!new)>(list: List<T>)
    requires old(list.ring) != [] && old(list.Valid()) && unchanged(list)
    requires forall i :: 0 <= i < |list.ring| ==> unchanged(list.ring[i])
    ensures list.Valid() && list.Contents() == old(list.Contents())
  {
    var ring := list.ring;
    forall j | 0 <= j < |ring| ensures Linked(ring[j], After(ring, j)) {
      assert old(Linked(ring[j], After(ring, j)));
    }
  }

  class HashMap<Key(!new, ==), Value(!new)> {
    const buckets: seq<List<Entry<Key, Value>>>
    const hf: Key -> nat

    ghost function Nodes(): set<object>
      reads this, buckets
    {
      set b, i | 0 <= b < |buckets| && 0 <= i < |buckets[b].ring| :: buckets[b].ring[i]
    }

    ghost predicate Apart(b: nat, c: nat)
      requires b < |buckets| && c < |buckets|
      reads buckets[b], buckets[c]
    {
      buckets[b] != buckets[c] && forall n :: n in buckets[b].ring ==> n !in buckets[c].ring
    }

    ghost predicate Valid()
      reads this, buckets, Nodes()
    {
      && buckets != []
      && (forall b :: 0 <= b < |buckets| ==> buckets[b].ring != [] && buckets[b].Valid())
      && (forall b, c :: 0 <= b < |buckets| && 0 <= c < |buckets| && b != c ==> Apart(b, c))
    }

    function Index(k: Key): (b: nat)
      requires buckets != []
      ensures b < |buckets|
    {
      hf(k) % |buckets|
    }

    ghost function Bindings(k: Key): seq<Value>
      requires Valid()
      reads this, buckets, Nodes()
    {
      Stack(buckets[Index(k)].Contents(), k)
    }

    // Every table entry, whatever it was linked to, becomes an empty chain
    constructor (buckets: seq<List<Entry<Key, Value>>>, hf: Key -> nat, nothing: Entry<Key, Value>)
      requires buckets != []
      requires forall b, c :: 0 <= b < c < |buckets| ==>
                 buckets[b] != buckets[c] && buckets[b].dummy != buckets[c].dummy
      modifies buckets, set b | 0 <= b < |buckets| :: buckets[b].dummy
      ensures this.buckets == buckets && this.hf == hf && Valid() && forall k :: Bindings(k) == []
    {
      this.buckets := buckets;
      this.hf := hf;
      new;
      for i := 0 to |buckets|
        invariant forall b :: 0 <= b < i ==> buckets[b].ring == [buckets[b].dummy] && buckets[b].Valid()
      {
        buckets[i].Empty(nothing);
      }
      assert forall b :: 0 <= b < |buckets| ==> buckets[b].Contents() == [];
    }

    // One bucket gets a node in front, the others keep theirs
    method PushFront(b: nat, e: Entry<Key, Value>, node: Node<Entry<Key, Value>>)
      requires Valid() && b < |buckets| && node !in Nodes()
      modifies buckets[b], buckets[b].ring, node
      ensures Valid() && buckets[b].Contents() == [e] + old(buckets[b].Contents())
      ensures forall c :: 0 <= c < |buckets| && c != b ==> buckets[c].Contents() == old(buckets[c].Contents())
    {
      hide IsRing;
      ghost var ring := buckets[b].ring;
      NotIn(node);
      buckets[b].Prepend(e, node);
      assert forall n :: n in buckets[b].ring <==> n in ring || n == node;
      forall c | 0 <= c < |buckets| && c != b
        ensures buckets[c].ring != [] && buckets[c].Valid() && Apart(b, c) && Apart(c, b)
        ensures buckets[c].Contents() == old(buckets[c].Contents())
      {
        assert old(Apart(b, c)) && old(Apart(c, b)) && old(buckets[c].Valid());
        forall i | 0 <= i < |buckets[c].ring| ensures unchanged(buckets[c].ring[i]) {
          assert buckets[c].ring[i] in buckets[c].ring;
        }
        Untouched(buckets[c]);
      }
      forall c, d | 0 <= c < |buckets| && 0 <= d < |buckets| && c != d && c != b && d != b ensures Apart(c, d) {
        assert old(Apart(c, d) && Apart(b, c) && Apart(b, d));
      }
    }

    lemma NotIn(node: Node<Entry<Key, Value>>)
      requires Valid() && node !in Nodes()
      ensures forall c :: 0 <= c < |buckets| ==> node !in buckets[c].ring
    {
      forall c | 0 <= c < |buckets| ensures node !in buckets[c].ring {
        forall i | 0 <= i < |buckets[c].ring| ensures buckets[c].ring[i] != node {
          assert buckets[c].ring[i] in Nodes();
        }
      }
    }

    /** insert(): pushes a binding on the stack of its key and leaves all other keys alone. */
    method Insert(k: Key, v: Value, node: Node<Entry<Key, Value>>)
      requires Valid() && node !in Nodes()
      modifies buckets, Nodes(), node
      ensures Valid()
      ensures forall l :: Bindings(l) == (if l == k then [v] else []) + old(Bindings(l))
      ensures var home := hf(k) % |buckets|;
              && buckets[home].Contents() == [Entry(k, v)] + old(buckets[home].Contents())
              && forall c :: 0 <= c < |buckets| && c != home ==> buckets[c].Contents() == old(buckets[c].Contents())
    {
      hide Stack;
      var b := Index(k);
      InNodes(b);
      PushFront(b, Entry(k, v), node);
      forall l ensures Bindings(l) == (if l == k then [v] else []) + old(Bindings(l)) {
        StackPush(Entry(k, v), old(buckets[b].Contents()), l);
        if Index(l) != b { assert [] + old(Bindings(l)) == old(Bindings(l)); }
      }
    }

    lemma InNodes(b: nat)
      requires Valid() && b < |buckets|
      ensures forall n :: n in buckets[b].ring ==> n in Nodes()
    {
      forall i | 0 <= i < |buckets[b].ring| ensures buckets[b].ring[i] in Nodes() {
      }
    }

    // The walk down a chain: where the first entry of the key is, if there is one
    method Walk(k: Key) returns (found: Option<Node<Entry<Key, Value>>>, ghost i: nat)
      requires Valid()
      ensures i <= |buckets[Index(k)].Contents()|
      ensures forall j :: 0 <= j < i ==> buckets[Index(k)].Contents()[j].key != k
      ensures found == None <==> i == |buckets[Index(k)].Contents()|
      ensures found == None <==>
                forall j :: 0 <= j < |buckets[Index(k)].Contents()| ==> buckets[Index(k)].Contents()[j].key != k
      ensures found.Some? ==> found.value in buckets[Index(k)].ring && found.value.payload.key == k
      ensures found.Some? ==>
                && found.value == buckets[Index(k)].ring[i + 1]
                && found.value.payload == buckets[Index(k)].Contents()[i]
                && buckets[Index(k)].Contents()[i].key == k
    {
      var list := buckets[Index(k)];
      hide IsRing, Linked;
      i := 0;
      Neighbours(list.ring, 0);
      var curr := list.dummy.next;
      while curr != list.dummy
        invariant i < |list.ring| && curr == After(list.ring, i)
        invariant forall j :: 0 <= j < i ==> list.Contents()[j].key != k
        decreases |list.ring| - i
      {
        assert i + 1 < |list.ring|;
        if curr.payload.key == k {
          assert list.Contents()[i].key == k;
          return Some(curr), i;
        }
        i := i + 1;
        Neighbours(list.ring, i);
        curr := curr.next;
      }
      RingStays(list.ring, 0);
      found := None;
    }

    /** find(): the newest binding of the key. */
    method Find(k: Key) returns (value: Option<Value>)
      requires Valid()
      ensures value == if Bindings(k) == [] then None else Some(Bindings(k)[0])
    {
      var found;
      ghost var i;
      found, i := Walk(k);
      ghost var chain := buckets[Index(k)].Contents();
      match found
      case None =>
        NoneInPrefix(chain, k);
        value := None;
      case Some(node) =>
        FirstIsTop(chain, i, k, k);
        value := Some(node.payload.value);
    }

    // One bucket loses a node, the others keep theirs
    method CutOut(b: nat, node: Node<Entry<Key, Value>>, ghost i: nat)
      requires Valid() && b < |buckets| && 0 < i < |buckets[b].ring| && buckets[b].ring[i] == node
      modifies buckets[b], buckets[b].ring
      ensures Valid() && node.payload == old(node.payload)
      ensures buckets[b].Contents() == old(buckets[b].Contents())[..i - 1] + old(buckets[b].Contents())[i..]
      ensures forall c :: 0 <= c < |buckets| && c != b ==> buckets[c].Contents() == old(buckets[c].Contents())
    {
      hide IsRing;
      ghost var ring := buckets[b].ring;
      buckets[b].RemoveNode(node, i);
      assert forall n :: n in buckets[b].ring ==> n in ring;
      forall c | 0 <= c < |buckets| && c != b
        ensures buckets[c].ring != [] && buckets[c].Valid() && Apart(b, c) && Apart(c, b)
        ensures buckets[c].Contents() == old(buckets[c].Contents())
      {
        assert old(Apart(b, c)) && old(Apart(c, b)) && old(buckets[c].Valid());
        forall j | 0 <= j < |buckets[c].ring| ensures unchanged(buckets[c].ring[j]) {
          assert buckets[c].ring[j] in buckets[c].ring;
        }
        Untouched(buckets[c]);
      }
      forall c, d | 0 <= c < |buckets| && 0 <= d < |buckets| && c != d && c != b && d != b ensures Apart(c, d) {
        assert old(Apart(c, d) && Apart(b, c) && Apart(b, d));
      }
    }

    /** remove(): pops the newest binding of the key and leaves all other keys alone, so it
        undoes an insert() of the same key. */
    method Remove(k: Key) returns (value: Option<Value>)
      requires Valid()
      modifies buckets, Nodes()
      ensures Valid()
      ensures value == None <==> old(Bindings(k)) == []
      ensures value.Some? ==> [value.value] + Bindings(k) == old(Bindings(k))
      ensures forall l :: l != k || value == None ==> Bindings(l) == old(Bindings(l))
    {
      var found;
      ghost var i;
      found, i := Walk(k);
      match found
      case None =>
        NoneInPrefix(buckets[Index(k)].Contents(), k);
        value := None;
      case Some(node) =>
        value := Some(node.payload.value);
        Pop(k, node, i);
    }

    // Cut the node that find() has found
    method Pop(k: Key, node: Node<Entry<Key, Value>>, ghost i: nat)
      requires Valid() && i < |buckets[Index(k)].Contents()| && node == buckets[Index(k)].ring[i + 1]
      requires node.payload == buckets[Index(k)].Contents()[i] && node.payload.key == k
      requires forall j :: 0 <= j < i ==> buckets[Index(k)].Contents()[j].key != k
      modifies buckets, Nodes()
      ensures Valid()
      ensures old(Bindings(k)) == [old(node.payload.value)] + Bindings(k)
      ensures forall l :: l != k ==> Bindings(l) == old(Bindings(l))
    {
      hide Stack, IsRing;
      var b := Index(k);
      ghost var chain := buckets[b].Contents();
      InNodes(b);
      CutOut(b, node, i + 1);
      forall l ensures l != k ==> Bindings(l) == old(Bindings(l)) {
        FirstIsTop(chain, i, k, l);
      }
      FirstIsTop(chain, i, k, k);
    }
  }
}
