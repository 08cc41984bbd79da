/** Buckets as windows into the one list of all pairs: each holds the first and the last node of a
    contiguous stretch, or the sentinel twice when it has no pair. */
module Buckets {
  import opened ListRing

  datatype Bucket<V> = Bucket(first: Node<V>, last: Node<V>)

  /** The bucket a node belongs to when there are n of them. */
  function Home<V>(node: Node<V>, n: nat): int
    requires n > 0
  {
    if node.entry.Pair? then node.entry.hash % n else -1
  }

  ghost predicate Vacant<V>(nodes: seq<Node<V>>, n: nat, b: int)
    requires n > 0
  {
    forall i :: 0 <= i < |nodes| ==> Home(nodes[i], n) != b
  }

  /** The nodes at home in b are exactly those from position lo to position hi. */
  ghost predicate Window<V>(nodes: seq<Node<V>>, n: nat, b: int, w: Bucket<V>, lo: int, hi: int)
    requires n > 0
  {
    && 0 <= lo <= hi < |nodes| && w.first == nodes[lo] && w.last == nodes[hi]
    && forall i :: 0 <= i < |nodes| ==> (Home(nodes[i], n) == b <==> lo <= i <= hi)
  }

  ghost predicate BucketOk<V>(head: Node<V>, nodes: seq<Node<V>>, n: nat, b: int, w: Bucket<V>)
    requires n > 0
  {
    if Vacant(nodes, n, b) then w == Bucket(head, head) else exists lo, hi :: Window(nodes, n, b, w, lo, hi)
  }

  ghost predicate BucketsOk<V>(head: Node<V>, nodes: seq<Node<V>>, buckets: seq<Bucket<V>>) {
    && buckets != []
    && forall b :: 0 <= b < |buckets| ==> BucketOk(head, nodes, |buckets|, b, buckets[b])
  }

  lemma InsertElsewhere<V>(head: Node<V>, nodes: seq<Node<V>>, n: nat, b: int, w: Bucket<V>, p: nat, x: Node<V>)
    requires n > 0 && p <= |nodes| && BucketOk(head, nodes, n, b, w)
    requires Home(x, n) != b && (p == |nodes| || Home(nodes[p], n) != b)
    ensures BucketOk(head, Inserted(nodes, p, x), n, b, w)
  {
    var now := Inserted(nodes, p, x);
    if Vacant(nodes, n, b) {
      assert Vacant(now, n, b);
    } else {
      var lo, hi :| Window(nodes, n, b, w, lo, hi);
      if p <= lo {
        assert Window(now, n, b, w, lo + 1, hi + 1);
      } else {
        assert Window(now, n, b, w, lo, hi);
      }
      assert now[if p <= lo then lo + 1 else lo] == nodes[lo];
    }
  }

  lemma InsertVacant<V>(head: Node<V>, nodes: seq<Node<V>>, n: nat, b: int, x: Node<V>)
    requires n > 0 && Vacant(nodes, n, b) && Home(x, n) == b
    ensures BucketOk(head, Inserted(nodes, |nodes|, x), n, b, Bucket(x, x))
  {
    var now := Inserted(nodes, |nodes|, x);
    assert now[|nodes|] == x;
    assert Window(now, n, b, Bucket(x, x), |nodes|, |nodes|);
  }

  lemma InsertFront<V>(head: Node<V>, nodes: seq<Node<V>>, n: nat, b: int, w: Bucket<V>, lo: int, hi: int, x: Node<V>)
    requires n > 0 && Window(nodes, n, b, w, lo, hi) && Home(x, n) == b
    ensures BucketOk(head, Inserted(nodes, lo, x), n, b, w.(first := x))
  {
    var now := Inserted(nodes, lo, x);
    assert now[lo] == x;
    assert Window(now, n, b, w.(first := x), lo, hi + 1);
  }

  lemma RemoveElsewhere<V>(head: Node<V>, nodes: seq<Node<V>>, n: nat, b: int, w: Bucket<V>, p: nat)
    requires n > 0 && p < |nodes| && BucketOk(head, nodes, n, b, w) && Home(nodes[p], n) != b
    ensures BucketOk(head, Removed(nodes, p), n, b, w)
  {
    var now := Removed(nodes, p);
    if Vacant(nodes, n, b) {
      assert Vacant(now, n, b);
    } else {
      var lo, hi :| Window(nodes, n, b, w, lo, hi);
      if p < lo {
        assert Window(now, n, b, w, lo - 1, hi - 1);
      } else {
        assert Window(now, n, b, w, lo, hi);
      }
      assert now[if p < lo then lo - 1 else lo] == nodes[lo];
    }
  }

  /** The bucket after the node at p has left it. */
  function Shrunk<V>(head: Node<V>, nodes: seq<Node<V>>, w: Bucket<V>, p: nat): Bucket<V>
    requires p < |nodes|
  {
    if nodes[p] == w.first && nodes[p] == w.last then
      Bucket(head, head)
    else if nodes[p] == w.first && p + 1 < |nodes| then
      w.(first := nodes[p + 1])
    else if nodes[p] == w.last && p > 0 then
      w.(last := nodes[p - 1])
    else
      w
  }

  lemma RemoveWithin<V>(head: Node<V>, nodes: seq<Node<V>>, n: nat, b: int, w: Bucket<V>, lo: int, hi: int, p: nat)
    requires n > 0 && Distinct(nodes) && Window(nodes, n, b, w, lo, hi) && lo <= p <= hi
    ensures BucketOk(head, Removed(nodes, p), n, b, Shrunk(head, nodes, w, p))
  {
    var now := Removed(nodes, p);
    if lo == hi {
      assert Vacant(now, n, b);
    } else {
      assert Window(now, n, b, Shrunk(head, nodes, w, p), lo, hi - 1);
      assert now[lo] == if p == lo then nodes[lo + 1] else nodes[lo];
    }
  }

  /** The place where `insert_to_bucket` links a node: at the end of the list for a vacant bucket,
      otherwise in front of the bucket's first node. */
  ghost predicate Entrance<V>(nodes: seq<Node<V>>, n: nat, b: int, w: Bucket<V>, p: nat)
    requires n > 0
  {
    if Vacant(nodes, n, b) then p == |nodes| else exists hi :: Window(nodes, n, b, w, p, hi)
  }

  /** The bucket after a node has come in. */
  ghost function Grown<V>(nodes: seq<Node<V>>, n: nat, b: int, w: Bucket<V>, x: Node<V>): Bucket<V>
    requires n > 0
  {
    if Vacant(nodes, n, b) then Bucket(x, x) else w.(first := x)
  }

  /** Inserting there keeps every bucket's window, and brings the node into its own. */
  lemma InsertKeepsBuckets<V>(head: Node<V>, nodes: seq<Node<V>>, buckets: seq<Bucket<V>>, p: nat, x: Node<V>, b: nat)
    requires BucketsOk(head, nodes, buckets) && p <= |nodes| && b < |buckets| && Home(x, |buckets|) == b
    requires Entrance(nodes, |buckets|, b, buckets[b], p)
    ensures BucketsOk(head, Inserted(nodes, p, x), buckets[b := Grown(nodes, |buckets|, b, buckets[b], x)])
  {
    var n, now := |buckets|, buckets[b := Grown(nodes, |buckets|, b, buckets[b], x)];
    if Vacant(nodes, n, b) {
      InsertVacant(head, nodes, n, b, x);
    } else {
      var hi :| Window(nodes, n, b, buckets[b], p, hi);
      InsertFront(head, nodes, n, b, buckets[b], p, hi, x);
    }
    forall c | 0 <= c < n && c != b ensures BucketOk(head, Inserted(nodes, p, x), n, c, now[c]) {
      InsertElsewhere(head, nodes, n, c, buckets[c], p, x);
    }
  }

  lemma InsertIntoVacant<V>(head: Node<V>, nodes: seq<Node<V>>, buckets: seq<Bucket<V>>, x: Node<V>, b: nat)
    requires BucketsOk(head, nodes, buckets) && b < |buckets| && Home(x, |buckets|) == b && Vacant(nodes, |buckets|, b)
    ensures BucketsOk(head, Inserted(nodes, |nodes|, x), buckets[b := Bucket(x, x)])
  {
    InsertKeepsBuckets(head, nodes, buckets, |nodes|, x, b);
  }

  lemma RemoveKeepsBuckets<V>(head: Node<V>, nodes: seq<Node<V>>, buckets: seq<Bucket<V>>, p: nat, b: nat)
    requires BucketsOk(head, nodes, buckets) && Distinct(nodes) && p < |nodes|
    requires b < |buckets| && Home(nodes[p], |buckets|) == b
    ensures BucketsOk(head, Removed(nodes, p), buckets[b := Shrunk(head, nodes, buckets[b], p)])
  {
    var now := buckets[b := Shrunk(head, nodes, buckets[b], p)];
    forall c | 0 <= c < |buckets| ensures BucketOk(head, Removed(nodes, p), |buckets|, c, now[c]) {
      if c == b {
        var lo, hi :| Window(nodes, |buckets|, b, buckets[b], lo, hi);
        RemoveWithin(head, nodes, |buckets|, b, buckets[b], lo, hi, p);
      } else {
        RemoveElsewhere(head, nodes, |buckets|, c, buckets[c], p);
      }
    }
  }

  /** With no pairs at all, every bucket is the sentinel twice. */
  lemma FreshBuckets<V>(head: Node<V>, buckets: seq<Bucket<V>>)
    requires buckets != [] && forall b :: 0 <= b < |buckets| ==> buckets[b] == Bucket(head, head)
    ensures BucketsOk(head, [], buckets)
  {
  }
}
