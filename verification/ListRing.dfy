/** The intrusive list of src/hashtable.c: one ring of nodes with a sentinel, `list_init`,
    `list_insert` and `list_remove`. */
module ListRing {

  /** A pointer: where the block lies and what it holds. */
  datatype Ptr<T> = Ptr(addr: nat, at: T)

  type Str = Ptr<string>

  /** The pair around a list node; the sentinel has none. */
  datatype Entry<V> = Sentinel | Pair(key: Str, value: Ptr<V>, hash: nat)

  class Node<V> {
    var prev: Node<V>
    var next: Node<V>
    const entry: Entry<V>

    /** `malloc`, the assignments to the pair, and `list_init`. */
    constructor (entry: Entry<V>)
      ensures this.entry == entry && prev == this && next == this
    {
      this.entry := entry;
      prev := this;
      next := this;
    }
  }

  /** The neighbours of position i on a ring of n nodes. */
  function After(i: int, n: int): int { if i + 1 == n then 0 else i + 1 }

  function Before(i: int, n: int): int { if i == 0 then n - 1 else i - 1 }

  ghost predicate Distinct<T>(s: seq<T>) {
    forall i, j :: 0 <= i < j < |s| ==> s[i] != s[j]
  }

  /** The nodes are linked both ways, and the last one is linked to the first. */
  ghost predicate Linked<V>(ring: seq<Node<V>>)
    reads ring
  {
    && ring != []
    && (forall i {:trigger ring[i].next} :: 0 <= i < |ring| ==> ring[i].next == ring[After(i, |ring|)])
    && (forall i {:trigger ring[i].prev} :: 0 <= i < |ring| ==> ring[i].prev == ring[Before(i, |ring|)])
  }

  ghost predicate Ring<V>(ring: seq<Node<V>>)
    reads ring
  {
    Linked(ring) && Distinct(ring)
  }

  function Inserted<T>(s: seq<T>, p: nat, x: T): (r: seq<T>)
    requires p <= |s|
    ensures |r| == |s| + 1 && r[p] == x
    ensures forall k :: 0 <= k < p ==> r[k] == s[k]
    ensures forall k :: p < k < |r| ==> r[k] == s[k - 1]
  {
    s[..p] + [x] + s[p..]
  }

  function Removed<T>(s: seq<T>, p: nat): (r: seq<T>)
    requires p < |s|
    ensures |r| == |s| - 1
    ensures forall k :: 0 <= k < p ==> r[k] == s[k]
    ensures forall k :: p <= k < |r| ==> r[k] == s[k + 1]
  {
    s[..p] + s[p + 1..]
  }

  lemma DistinctInserted<T>(s: seq<T>, p: nat, x: T)
    requires p <= |s| && Distinct(s) && x !in s
    ensures Distinct(Inserted(s, p, x))
  {
  }

  lemma DistinctRemoved<T>(s: seq<T>, p: nat)
    requires p < |s| && Distinct(s)
    ensures Distinct(Removed(s, p)) && s[p] !in Removed(s, p)
  {
  }

  /** `list_init` on a list head. */
  method ListInit<V>(list: Node<V>)
    modifies list
    ensures Ring([list])
  {
    list.next := list;
    list.prev := list;
  }

  /** The ring with its links bent around a new node at q is a ring with that node in it. */
  lemma BentIsLinked<V>(ring: seq<Node<V>>, q: nat, node: Node<V>)
    requires 1 <= q <= |ring|
    requires node.prev == ring[q - 1] && node.next == ring[if q == |ring| then 0 else q]
    requires forall i {:trigger ring[i].next} :: 0 <= i < |ring| ==>
               ring[i].next == if i == q - 1 then node else ring[After(i, |ring|)]
    requires forall i {:trigger ring[i].prev} :: 0 <= i < |ring| ==>
               ring[i].prev == if i == (if q == |ring| then 0 else q) then node else ring[Before(i, |ring|)]
    ensures Linked(Inserted(ring, q, node))
  {
    var now := Inserted(ring, q, node);
    forall i | 0 <= i < |now| ensures now[i].next == now[After(i, |now|)] {
      if i != q {
        assert now[i] == ring[if i < q then i else i - 1];
      }
    }
    forall i | 0 <= i < |now| ensures now[i].prev == now[Before(i, |now|)] {
      if i != q {
        assert now[i] == ring[if i < q then i else i - 1];
      }
    }
  }

  /** `list_insert`: the node goes in front of `list`, which stands at q on the ring; in front of
      the head means at the end. */
  method ListInsert<V>(list: Node<V>, node: Node<V>, ghost ring: seq<Node<V>>, ghost q: nat)
    requires Ring(ring) && 1 <= q <= |ring| && list == ring[if q == |ring| then 0 else q]
    requires node !in ring
    modifies ring, node
    ensures Ring(Inserted(ring, q, node))
  {
    DistinctInserted(ring, q, node);
    ghost var at := if q == |ring| then 0 else q;
    assert list.prev == ring[q - 1];
    node.next := list;
    node.prev := list.prev;
    list.prev.next := node;
    list.prev := node;
    assert forall i :: 0 <= i < |ring| && i != q - 1 ==> ring[i] != ring[q - 1];
    assert forall i :: 0 <= i < |ring| && i != at ==> ring[i] != ring[at];
    BentIsLinked(ring, q, node);
  }

  /** The ring with its links bent past the node at q is a ring without that node. */
  lemma BypassedIsLinked<V>(ring: seq<Node<V>>, q: nat)
    requires 1 <= q < |ring|
    requires forall i {:trigger ring[i].next} :: 0 <= i < |ring| && i != q ==>
               ring[i].next == ring[After(if i == q - 1 then q else i, |ring|)]
    requires forall i {:trigger ring[i].prev} :: 0 <= i < |ring| && i != q ==>
               ring[i].prev == ring[Before(if i == After(q, |ring|) then q else i, |ring|)]
    ensures Linked(Removed(ring, q))
  {
    var now := Removed(ring, q);
    forall i | 0 <= i < |now| ensures now[i].next == now[After(i, |now|)] {
      assert now[i] == ring[if i < q then i else i + 1];
    }
    forall i | 0 <= i < |now| ensures now[i].prev == now[Before(i, |now|)] {
      assert now[i] == ring[if i < q then i else i + 1];
    }
  }

  /** `list_remove`. */
  method ListRemove<V>(list: Node<V>, ghost ring: seq<Node<V>>, ghost q: nat)
    requires Ring(ring) && 1 <= q < |ring| && list == ring[q]
    modifies ring
    ensures Ring(Removed(ring, q))
    ensures list.next == old(list.next) && list.prev == old(list.prev)
  {
    DistinctRemoved(ring, q);
    ghost var behind := After(q, |ring|);
    assert list.prev == ring[q - 1] && list.next == ring[behind];
    list.prev.next := list.next;
    list.next.prev := list.prev;
    assert forall i :: 0 <= i < |ring| && i != q - 1 ==> ring[i] != ring[q - 1];
    assert forall i :: 0 <= i < |ring| && i != behind ==> ring[i] != ring[behind];
    BypassedIsLinked(ring, q);
  }
}
