/** Ring lists: nodes linked in both directions around a dummy node. */
module StaticLists {

  class Node<T> {
    var prev: Node<T>
    var next: Node<T>
    var payload: T

    // A node that is linked to itself only
    constructor (payload: T)
      ensures prev == this == next && this.payload == payload
    {
      prev, next, this.payload := this, this, payload;
    }

    method Init(value: T)
      modifies this
      ensures prev == this == next && payload == value
    {
      prev, next := this, this;
      payload := value;
    }

    // Is a node linked to itself only?
    method IsSingleton() returns (single: bool)
      ensures single <==> next == this
    {
      single := next == this;
    }
  }

  ghost predicate Linked<T(!new)>(a: Node<T>, b: Node<T>)
    reads a, b
  {
    a.next == b && b.prev == a
  }

  // Who comes after a place of the ring
  ghost function After<T>(ring: seq<Node<T>>, i: nat): Node<T>
    requires i < |ring|
  {
    if i + 1 < |ring| then ring[i + 1] else ring[0]
  }

  ghost predicate Distinct<T>(ring: seq<Node<T>>) {
    forall i, j :: 0 <= i < j < |ring| ==> ring[i] != ring[j]
  }

  /** The nodes of a ring, from one of them on: next and prev are inverse to each other. */
  ghost predicate IsRing<T(!new)>(ring: seq<Node<T>>)
    reads ring
  {
    ring != [] && Distinct(ring) && forall i :: 0 <= i < |ring| ==> Linked(ring[i], After(ring, i))
  }

  // The ring with a node inserted after the i-th
  ghost function Inserted<T>(ring: seq<Node<T>>, i: nat, node: Node<T>): seq<Node<T>>
    requires i < |ring|
  {
    ring[..i + 1] + [node] + ring[i + 1..]
  }

  ghost function Removed<T>(ring: seq<Node<T>>, i: nat): seq<Node<T>>
    requires i < |ring|
  {
    ring[..i] + ring[i + 1..]
  }

  lemma Neighbours<T(!new)>(ring: seq<Node<T>>, i: nat)
    requires IsRing(ring) && i < |ring|
    ensures ring[i].next == After(ring, i) && After(ring, i) in ring
    ensures ring[i].prev == (if i > 0 then ring[i - 1] else ring[|ring| - 1]) && ring[i].prev in ring
  {
    assert Linked(ring[i], After(ring, i));
    var before := if i > 0 then i - 1 else |ring| - 1;
    assert Linked(ring[before], After(ring, before));
  }

  lemma RingStays<T(!new)>(ring: seq<Node<T>>, i: nat)
    requires IsRing(ring) && i < |ring|
    ensures forall j :: 0 <= j < |ring| && j != i ==> ring[j] != ring[i]
  {
  }

  // static_list_node_insert_after()
  method InsertAfter<T(!new)>(at: Node<T>, node: Node<T>, ghost ring: seq<Node<T>>, ghost i: nat)
    requires IsRing(ring) && i < |ring| && ring[i] == at && node !in ring
    modifies at`next, node`next, node`prev, at.next`prev
    ensures IsRing(Inserted(ring, i, node))
  {
    ghost var succ := After(ring, i);
    assert Linked(at, succ);
    node.next := at.next;
    node.prev := at;
    at.next := node;
    node.next.prev := node;
    ghost var ring' := Inserted(ring, i, node);
    forall j | 0 <= j < |ring'| ensures Linked(ring'[j], After(ring', j)) {
      if j < i {
        assert old(Linked(ring[j], After(ring, j)));
      } else if j > i + 1 {
        assert old(Linked(ring[j - 1], After(ring, j - 1)));
      }
    }
  }

  // static_list_node_insert_before()
  method InsertBefore<T(!new)>(at: Node<T>, node: Node<T>, ghost ring: seq<Node<T>>)
    requires IsRing(ring) && ring[0] == at && node !in ring
    modifies at`prev, node`next, node`prev, at.prev`next
    ensures IsRing(ring + [node])
  {
    ghost var last := |ring| - 1;
    assert Linked(ring[last], at);
    node.prev := at.prev;
    node.next := at;
    at.prev := node;
    node.prev.next := node;
    ghost var ring' := ring + [node];
    forall j | 0 <= j < |ring'| ensures Linked(ring'[j], After(ring', j)) {
      if j < last {
        assert old(Linked(ring[j], After(ring, j)));
      }
    }
  }

  // static_list_node_set_payload()
  method SetPayload<T(!new)>(node: Node<T>, value: T, ghost ring: seq<Node<T>>)
    requires IsRing(ring)
    modifies node`payload
    ensures node.payload == value && IsRing(ring)
  {
    node.payload := value;
    forall j | 0 <= j < |ring| ensures Linked(ring[j], After(ring, j)) {
      assert old(Linked(ring[j], After(ring, j)));
    }
  }

  // static_list_node_cut()
  method Cut<T(!new)>(node: Node<T>, ghost ring: seq<Node<T>>, ghost i: nat)
    requires IsRing(ring) && i < |ring| && ring[i] == node
    modifies node`next, node`prev, node.next`prev, node.prev`next
    ensures node.prev == node == node.next
    ensures |ring| > 1 ==> IsRing(Removed(ring, i))
  {
    ghost var before := if i > 0 then i - 1 else |ring| - 1;
    assert Linked(ring[before], node) && Linked(node, After(ring, i));
    node.next.prev := node.prev;
    node.prev.next := node.next;
    node.next, node.prev := node, node;
    ghost var ring' := Removed(ring, i);
    forall j | 0 <= j < |ring'| ensures Linked(ring'[j], After(ring', j)) {
      if i > 0 && j < i - 1 {
        assert old(Linked(ring[j], After(ring, j)));
      } else if j >= i {
        assert old(Linked(ring[j + 1], After(ring, j + 1)));
      }
    }
  }

  // ---------------------------------------------------------------------------
  // Lists
  // ---------------------------------------------------------------------------

  datatype Option<+T> = None | Some(value: T)

  class List<T(!new)> {
    const dummy: Node<T>
    ghost var ring: seq<Node<T>>

    ghost predicate Valid()
      reads this, ring
    {
      ring != [] && ring[0] == dummy && IsRing(ring)
    }

    // The list is the payloads of the ring after the dummy
    ghost function Contents(): (s: seq<T>)
      requires ring != []
      reads this, ring
      ensures |s| == |ring| - 1
    {
      seq(|ring| - 1, i requires 0 <= i < |ring| - 1 reads this, ring => ring[i + 1].payload)
    }

    // The payload of the dummy is never looked at
    constructor (nothing: T)
      ensures Valid() && Contents() == [] && fresh(ring)
    {
      dummy := new Node(nothing);
      new;
      ring := [dummy];
    }

    // static_list_init() on a list that may have been anything
    method Empty(nothing: T)
      modifies this`ring, dummy
      ensures Valid() && ring == [dummy]
    {
      dummy.Init(nothing);
      ring := [dummy];
    }

    method IsEmpty() returns (empty: bool)
      requires Valid()
      ensures empty <==> Contents() == []
    {
      assert Linked(ring[0], After(ring, 0));
      empty := dummy.IsSingleton();
    }

    method Prepend(value: T, node: Node<T>)
      requires Valid() && node !in ring
      modifies this`ring, ring, node
      ensures Valid() && ring == Inserted(old(ring), 0, node)
      ensures Contents() == [value] + old(Contents())
    {
      hide IsRing;
      ghost var before := ring;
      node.Init(value);
      Neighbours(ring, 0);
      InsertAfter(dummy, node, ring, 0);
      ring := Inserted(ring, 0, node);
      assert ring[0] == before[0] && ring[1] == node;
      forall i | 2 <= i < |ring| ensures ring[i] == before[i - 1] && ring[i].payload == old(before[i - 1].payload) {
      }
    }

    method Append(value: T, node: Node<T>)
      requires Valid() && node !in ring
      modifies this`ring, ring, node
      ensures Valid() && ring == old(ring) + [node]
      ensures Contents() == old(Contents()) + [value]
    {
      hide IsRing;
      node.Init(value);
      Neighbours(ring, 0);
      InsertBefore(dummy, node, ring);
      ring := ring + [node];
    }

    // static_list_remove_node(): the node must be in the list
    method RemoveNode(node: Node<T>, ghost i: nat)
      requires Valid() && 0 < i < |ring| && ring[i] == node
      modifies this`ring, ring
      ensures Valid() && ring == Removed(old(ring), i) && node.payload == old(node.payload)
      ensures Contents() == old(Contents())[..i - 1] + old(Contents())[i..]
    {
      hide IsRing;
      ghost var before := ring;
      Neighbours(ring, i);
      Cut(node, ring, i);
      ring := Removed(ring, i);
      forall j | 0 <= j < |ring| ensures ring[j] == before[if j < i then j else j + 1] {
      }
    }

    method RemoveHead() returns (result: Option<T>)
      requires Valid()
      modifies this`ring, ring
      ensures Valid() && (result == None <==> old(Contents()) == [])
      ensures result.Some? ==> [result.value] + Contents() == old(Contents())
      ensures result == None ==> ring == old(ring) && Contents() == old(Contents())
    {
      var empty := IsEmpty();
      if empty {
        return None;
      }
      assert Linked(ring[0], After(ring, 0));
      var removed := dummy.next;
      RemoveNode(removed, 1);
      result := Some(removed.payload);
    }

    method RemoveTail() returns (result: Option<T>)
      requires Valid()
      modifies this`ring, ring
      ensures Valid() && (result == None <==> old(Contents()) == [])
      ensures result.Some? ==> Contents() + [result.value] == old(Contents())
      ensures result == None ==> ring == old(ring) && Contents() == old(Contents())
    {
      var empty := IsEmpty();
      if empty {
        return None;
      }
      assert Linked(ring[|ring| - 1], After(ring, |ring| - 1));
      var removed := dummy.prev;
      RemoveNode(removed, |ring| - 1);
      result := Some(removed.payload);
    }

    method GetHead() returns (result: Option<T>)
      requires Valid()
      ensures result == if Contents() == [] then None else Some(Contents()[0])
    {
      var empty := IsEmpty();
      if empty {
        return None;
      }
      assert Linked(ring[0], After(ring, 0));
      result := Some(dummy.next.payload);
    }

    method GetTail() returns (result: Option<T>)
      requires Valid()
      ensures result == if Contents() == [] then None else Some(Contents()[|Contents()| - 1])
    {
      var empty := IsEmpty();
      if empty {
        return None;
      }
      assert Linked(ring[|ring| - 1], After(ring, |ring| - 1));
      result := Some(dummy.prev.payload);
    }

    // static_list_map(): head to tail, each element once
    method Map(f: T -> T)
      requires Valid()
      modifies ring`payload
      ensures Valid() && ring == old(ring)
      ensures |Contents()| == |old(Contents())|
      ensures forall i :: 0 <= i < |Contents()| ==> Contents()[i] == f(old(Contents())[i])
    {
      hide IsRing, Linked;
      Neighbours(ring, 0);
      var curr := dummy.next;
      ghost var i: nat := 1;
      while curr != dummy
        invariant Valid() && 1 <= i <= |ring| && ring == old(ring)
        invariant curr == After(ring, i - 1)
        invariant forall j :: 1 <= j < i ==> ring[j].payload == f(old(ring[j].payload))
        invariant forall j :: i <= j < |ring| ==> ring[j].payload == old(ring[j].payload)
        decreases |ring| - i
      {
        RingStays(ring, i);
        Neighbours(ring, i);
        SetPayload(curr, f(curr.payload), ring);
        curr := curr.next;
        i := i + 1;
      }
      RingStays(ring, 0);
      assert i == |ring|;
    }

    /** static_list_process(): visits the elements from head to tail until one says stop, and
        comes to an end; `visited` is what it has been called with. */
    method Process(keepGoing: T -> bool) returns (visited: seq<T>)
      requires Valid()
      ensures visited <= Contents()
      ensures forall i :: 0 <= i < |visited| - 1 ==> keepGoing(visited[i])
      ensures visited != Contents() ==> visited != [] && !keepGoing(visited[|visited| - 1])
    {
      hide IsRing, Linked;
      visited := [];
      Neighbours(ring, 0);
      var curr := dummy.next;
      while curr != dummy
        invariant |visited| < |ring| && curr == After(ring, |visited|)
        invariant forall j :: 0 <= j < |visited| ==> visited[j] == ring[j + 1].payload && keepGoing(visited[j])
        decreases |ring| - |visited|
      {
        var payload := curr.payload;
        assert |visited| + 1 < |ring|;
        visited := visited + [payload];
        if !keepGoing(payload) {
          return;
        }
        Neighbours(ring, |visited|);
        curr := curr.next;
      }
      RingStays(ring, 0);
    }
  }
}
