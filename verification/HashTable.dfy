/** The hash table of src/hashtable.c: one ring of pairs, an array of buckets into it, growth by
    re-linking the same nodes in place. */
module HashTables {
  import opened Options
  import opened ListRing
  import opened Buckets
  import opened Pairs
  import opened Primes

  /** The accounts of a table: the blocks `Set` was handed, the blocks the free functions were called
      on, the number of calls of `Set` and the number of pairs moved by growing. */
  class Ledger {
    ghost var keysGiven: multiset<nat>
    ghost var keysFreed: multiset<nat>
    ghost var valuesGiven: multiset<nat>
    ghost var valuesFreed: multiset<nat>
    ghost var sets: nat
    ghost var moved: nat
    const freeKey: bool  // whether the free functions are non-NULL
    const freeValue: bool

    constructor (freeKey: bool, freeValue: bool)
      ensures this.freeKey == freeKey && this.freeValue == freeValue
      ensures keysGiven == keysFreed == multiset{} && valuesGiven == valuesFreed == multiset{}
      ensures sets == 0 && moved == 0
    {
      this.freeKey, this.freeValue := freeKey, freeValue;
      keysGiven, keysFreed, valuesGiven, valuesFreed := multiset{}, multiset{}, multiset{}, multiset{};
      sets, moved := 0, 0;
    }

    /** Every key and value handed over has been freed or is one of those live. */
    ghost predicate Owned(keys: multiset<nat>, values: multiset<nat>)
      reads this
    {
      && Balanced(freeKey, keysGiven, keysFreed, keys)
      && Balanced(freeValue, valuesGiven, valuesFreed, values)
    }

    /** How often a block has been freed, by either function. */
    ghost function Frees(block: nat): nat
      reads this
    {
      keysFreed[block] + valuesFreed[block]
    }

    /** Each growth up to index k moved exactly as many pairs as there were buckets, and a table
        that has grown to index k has seen more than sizes[k - 1] calls of `Set`. */
    ghost predicate Costs(sizes: seq<nat>, k: nat, size: nat)
      reads this
    {
      && k < |sizes| && moved == Moved(sizes, k) && size <= sets
      && (k > 0 ==> sizes[k - 1] < sets)
    }

    ghost predicate Accounts<V>(sizes: seq<nat>, k: nat, live: seq<Node<V>>)
      reads this
    {
      Owned(LiveKeys(live), LiveValues(live)) && Costs(sizes, k, |live|)
    }

    /** The table takes over a key and a value. */
    ghost method Take<V>(key: Str, value: Ptr<V>, was: seq<Node<V>>, now: seq<Node<V>>, pair: Node<V>)
      requires pair.entry.Pair? && pair.entry.key == key && pair.entry.value == value && Attached(was, now, pair)
      requires Owned(LiveKeys(was), LiveValues(was))
      modifies this`keysGiven, this`valuesGiven
      ensures Owned(LiveKeys(now), LiveValues(now))
      ensures keysGiven == old(keysGiven) + multiset{key.addr}
      ensures valuesGiven == old(valuesGiven) + multiset{value.addr}
    {
      GiveBalanced(freeKey, keysGiven, keysFreed, LiveKeys(was), key.addr);
      GiveBalanced(freeValue, valuesGiven, valuesFreed, LiveValues(was), value.addr);
      keysGiven := keysGiven + multiset{key.addr};
      valuesGiven := valuesGiven + multiset{value.addr};
    }

    /** `free_key`, if it is not NULL, on the key of a pair that has left the list. */
    method FreeKey(block: nat, ghost was: multiset<nat>, ghost now: multiset<nat>)
      requires Balanced(freeKey, keysGiven, keysFreed, was) && was == now + multiset{block}
      modifies this`keysFreed
      ensures Balanced(freeKey, keysGiven, keysFreed, now)
    {
      FreeBalanced(freeKey, keysGiven, keysFreed, now, block);
      keysFreed := Freed(freeKey, keysFreed, block);
    }

    /** `free_value`, if it is not NULL. */
    method FreeValue(block: nat, ghost was: multiset<nat>, ghost now: multiset<nat>)
      requires Balanced(freeValue, valuesGiven, valuesFreed, was) && was == now + multiset{block}
      modifies this`valuesFreed
      ensures Balanced(freeValue, valuesGiven, valuesFreed, now)
    {
      FreeBalanced(freeValue, valuesGiven, valuesFreed, now, block);
      valuesFreed := Freed(freeValue, valuesFreed, block);
    }

    /** The calls of the free functions on a pair that has left the list. */
    method Release<V>(pair: Node<V>, ghost was: seq<Node<V>>, ghost now: seq<Node<V>>)
      requires pair.entry.Pair? && Owned(LiveKeys(was), LiveValues(was))
      requires LiveKeys(was) == LiveKeys(now) + multiset{KeyBlock(pair)}
      requires LiveValues(was) == LiveValues(now) + multiset{ValueBlock(pair)}
      modifies this`keysFreed, this`valuesFreed
      ensures Owned(LiveKeys(now), LiveValues(now))
    {
      FreeKey(KeyBlock(pair), LiveKeys(was), LiveKeys(now));
      FreeValue(ValueBlock(pair), LiveValues(was), LiveValues(now));
    }
  }

  /** `malloc` and the loop that sets both ends of every bucket to the sentinel. */
  method NewBuckets<V>(head: Node<V>, n: nat) returns (buckets: array<Bucket<V>>)
    ensures fresh(buckets) && buckets.Length == n
    ensures forall b :: 0 <= b < n ==> buckets[b] == Bucket(head, head)
  {
    buckets := new Bucket<V>[n](_ => Bucket(head, head));
  }

  class HashTable<V> {
    var size: nat
    var buckets: array<Bucket<V>>
    var numBuckets: nat  // index to primes
    const primes: seq<nat>
    const list: Node<V>  // the sentinel
    const hashKey: string -> nat
    const ledger: Ledger

    /** The pairs in list order. */
    ghost var nodes: seq<Node<V>>

    ghost function Repr(): set<object>
      reads this
    {
      {this, list, buckets, ledger} + Members(nodes)
    }

    /** The sentinel and the pairs form a ring. */
    ghost predicate Threaded()
      reads this, list, nodes
    {
      Ring([list] + nodes) && list.entry.Sentinel?
    }

    ghost predicate Indexed()
      reads this, buckets
    {
      BucketsOk(list, nodes, buckets[..])
    }

    /** The list, the index into it and the counters agree. */
    ghost predicate Structured()
      reads this, list, buckets, nodes
    {
      && Threaded() && Indexed() && Keyed(nodes, hashKey)
      && size == |nodes| && Growing(primes) && numBuckets < |primes|
      && buckets.Length == primes[numBuckets] && size <= primes[numBuckets]
    }

    ghost predicate Valid()
      reads this, Repr()
    {
      Structured() && ledger.Accounts(primes, numBuckets, nodes)
    }

    /** The table has not filled its last prime. */
    predicate HasRoom()
      reads this
    {
      primes != [] && size < primes[|primes| - 1]
    }

    /** Setting the key needs no pair beyond what the table can take. */
    ghost predicate RoomFor(key: string)
      reads this
    {
      Holds(nodes, key) || HasRoom()
    }

    ghost function Map(): map<string, Ptr<V>>
      reads this
    {
      Contents(nodes)
    }

    /** `hashtable_init`. */
    constructor (hashKey: string -> nat, freeKey: bool, freeValue: bool)
      ensures Valid() && fresh(Repr())
      ensures Map() == map[] && nodes == [] && ledger.sets == 0
      ensures this.hashKey == hashKey && primes == PRIMES && ledger.freeKey == freeKey && ledger.freeValue == freeValue
      ensures ledger.keysGiven == multiset{} && ledger.valuesGiven == multiset{}
    {
      var head := new Node<V>(Sentinel);
      var n := PRIMES[0];
      PrimesGrow();
      this.hashKey, primes := hashKey, PRIMES;
      ledger := new Ledger(freeKey, freeValue);
      var vacant := NewBuckets(head, n);
      size, numBuckets, list, buckets, nodes := 0, 0, head, vacant, [];
      new;
      assert [list] + nodes == [head];
      EmptyIsValid();
      assert fresh({this, list, buckets, ledger});
    }

    lemma EmptyIsValid()
      requires nodes == [] && Threaded() && size == 0 && numBuckets == 0
      requires Growing(primes) && buckets.Length == primes[0]
      requires forall b :: 0 <= b < buckets.Length ==> buckets[b] == Bucket(list, list)
      requires ledger.keysGiven == ledger.keysFreed == ledger.valuesGiven == ledger.valuesFreed == multiset{}
      requires ledger.sets == ledger.moved == 0
      ensures Valid() && Map() == map[] && Repr() == {this, list, buckets, ledger}
    {
      FreshBuckets(list, buckets[..]);
      NothingLive(nodes);
    }

    /** Both ends of a bucket point to the sentinel exactly when no pair is at home in it. */
    lemma EmptyMeansVacant(index: nat)
      requires Threaded() && Indexed() && index < buckets.Length
      ensures buckets[index] == Bucket(list, list) <==> Vacant(nodes, buckets.Length, index)
    {
      assert BucketOk(list, nodes, buckets.Length, index, buckets[..][index]);
      if !Vacant(nodes, buckets.Length, index) {
        var lo, hi :| Window(nodes, buckets.Length, index, buckets[index], lo, hi);
        assert ([list] + nodes)[0] != ([list] + nodes)[lo + 1];
      }
    }

    /** `bucket_is_empty`: the pointer test tells whether any pair of the list belongs here. */
    method BucketIsEmpty(index: nat) returns (r: bool)
      requires Threaded() && Indexed() && index < buckets.Length
      ensures r <==> Vacant(nodes, buckets.Length, index)
    {
      EmptyMeansVacant(index);
      r := buckets[index].first == list && buckets[index].first == buckets[index].last;
    }

    /** Into an empty bucket: at the end of the list. */
    method InsertFirst(index: nat, node: Node<V>)
      requires Threaded() && Indexed() && node !in nodes && node != list
      requires index < buckets.Length && Home(node, buckets.Length) == index && Vacant(nodes, buckets.Length, index)
      modifies this`nodes, buckets, list, nodes, node
      ensures Threaded() && Indexed() && nodes == Inserted(old(nodes), |old(nodes)|, node)
    {
      ghost var ring, was, p := [list] + nodes, buckets[..], |nodes|;
      InsertIntoVacant(list, nodes, was, node, index);
      ListInsert(list, node, ring, |ring|);
      buckets[index] := Bucket(node, node);
      assert buckets[..] == was[index := Bucket(node, node)];
      nodes := Inserted(nodes, p, node);
      assert [list] + nodes == Inserted(ring, p + 1, node);
    }

    /** Into a bucket that has pairs: in front of its first node. */
    method InsertInFront(index: nat, node: Node<V>, ghost lo: nat, ghost hi: nat)
      requires Threaded() && Indexed() && node !in nodes && node != list
      requires index < buckets.Length && Home(node, buckets.Length) == index
      requires Window(nodes, buckets.Length, index, buckets[index], lo, hi)
      modifies this`nodes, buckets, list, nodes, node
      ensures Threaded() && Indexed() && nodes == Inserted(old(nodes), lo, node)
    {
      ghost var ring, was := [list] + nodes, buckets[..];
      assert Window(nodes, buckets.Length, index, was[index], lo, hi);
      InsertKeepsBuckets(list, nodes, was, lo, node, index);
      ListInsert(buckets[index].first, node, ring, lo + 1);
      buckets[index] := buckets[index].(first := node);
      assert buckets[..] == was[index := was[index].(first := node)];
      nodes := Inserted(nodes, lo, node);
      assert [list] + nodes == Inserted(ring, lo + 1, node);
    }

    /** `insert_to_bucket`. */
    method InsertToBucket(index: nat, node: Node<V>) returns (ghost p: nat)
      requires Threaded() && Indexed() && node !in nodes && node != list && node.entry.Pair?
      requires index < buckets.Length && Home(node, buckets.Length) == index
      modifies this`nodes, buckets, list, nodes, node
      ensures Threaded() && Indexed()
      ensures p <= |old(nodes)| && nodes == Inserted(old(nodes), p, node)
    {
      var empty := BucketIsEmpty(index);
      if empty {
        p := |nodes|;
        InsertFirst(index, node);
      } else {
        assert BucketOk(list, nodes, buckets.Length, index, buckets[..][index]);
        ghost var lo, hi :| Window(nodes, buckets.Length, index, buckets[index], lo, hi);
        p := lo;
        InsertInFront(index, node, lo, hi);
      }
    }

    /** A node with the key is at home in the bucket the search looks at. */
    lemma KeyIsAtHome(key: string, i: nat)
      requires Keyed(nodes, hashKey) && i < |nodes| && HasKey(nodes[i], key) && buckets.Length > 0
      ensures nodes[i].entry.hash == hashKey(key)
      ensures Home(nodes[i], buckets.Length) == hashKey(key) % buckets.Length
    {
    }

    /** `hashtable_find_pair`: the walk from the first to the last node of one bucket. */
    method FindPair(index: nat, key: string, hash: nat) returns (pair: Node?<V>, ghost p: nat)
      requires Threaded() && Indexed() && Keyed(nodes, hashKey)
      requires hash == hashKey(key) && buckets.Length > 0 && index == hash % buckets.Length
      ensures pair == null ==> forall i :: 0 <= i < |nodes| ==> !HasKey(nodes[i], key)
      ensures pair != null ==> p < |nodes| && nodes[p] == pair && HasKey(pair, key)
    {
      p := 0;
      var empty := BucketIsEmpty(index);
      if empty {
        forall i | 0 <= i < |nodes| ensures !HasKey(nodes[i], key) {
          assert Home(nodes[i], buckets.Length) != index;
        }
        return null, 0;
      }
      ghost var ring := [list] + nodes;
      assert BucketOk(list, nodes, buckets.Length, index, buckets[..][index]);
      ghost var lo, hi :| Window(nodes, buckets.Length, index, buckets[index], lo, hi);
      var node := buckets[index].first;
      p := lo;
      while true
        invariant lo <= p <= hi && node == nodes[p]
        invariant forall i :: lo <= i < p ==> !HasKey(nodes[i], key)
        decreases hi - p
      {
        if node.entry.hash == hash && node.entry.key.at == key {
          return node, p;
        }
        if node == buckets[index].last {
          break;
        }
        assert p != hi;
        assert ring[p + 1] == node && ring[p + 2] == nodes[p + 1];
        node := node.next;
        p := p + 1;
      }
      assert ring[p + 1] == ring[hi + 1] && p == hi;
      forall i | 0 <= i < |nodes| ensures !HasKey(nodes[i], key) {
        if HasKey(nodes[i], key) { KeyIsAtHome(key, i); }
      }
      pair := null;
    }

    /** The two branches of `hashtable_do_del` that move a bucket boundary to a neighbour, the one
        that empties the bucket, and the one that leaves it alone. */
    method ShrinkBucket(index: nat, pair: Node<V>, ghost p: nat)
      requires Threaded() && Indexed() && p < |nodes| && nodes[p] == pair
      requires index < buckets.Length && Home(pair, buckets.Length) == index
      modifies buckets
      ensures BucketsOk(list, Removed(nodes, p), buckets[..])
    {
      ghost var ring, was := [list] + nodes, buckets[..];
      assert ring[p + 1] == pair;
      assert Distinct(nodes) by {
        forall i, j | 0 <= i < j < |nodes| ensures nodes[i] != nodes[j] {
          assert ring[i + 1] != ring[j + 1];
        }
      }
      assert BucketOk(list, nodes, buckets.Length, index, was[index]);
      ghost var lo, hi :| Window(nodes, buckets.Length, index, was[index], lo, hi);
      RemoveKeepsBuckets(list, nodes, was, p, index);
      if pair == buckets[index].first && pair == buckets[index].last {
        buckets[index] := Bucket(list, list);
      } else if pair == buckets[index].first {
        assert ring[p + 2] == nodes[p + 1];
        buckets[index] := buckets[index].(first := pair.next);
      } else if pair == buckets[index].last {
        assert ring[p] == nodes[p - 1];
        buckets[index] := buckets[index].(last := pair.prev);
      }
      assert buckets[..] == was[index := Shrunk(list, nodes, was[index], p)];
    }

    /** Takes a pair out of its bucket and out of the ring. */
    method Unlink(index: nat, pair: Node<V>, ghost p: nat)
      requires Threaded() && Indexed() && p < |nodes| && nodes[p] == pair
      requires index < buckets.Length && Home(pair, buckets.Length) == index
      modifies this`nodes, buckets, list, nodes
      ensures Threaded() && Indexed()
      ensures nodes == Removed(old(nodes), p)
    {
      ShrinkBucket(index, pair, p);
      ghost var ring := [list] + nodes;
      ListRemove(pair, ring, p + 1);
      assert Removed(ring, p + 1) == [list] + Removed(nodes, p);
      nodes := Removed(nodes, p);
    }

    /** Looks the key up, unlinks its pair and counts one pair less. */
    method Detach(key: string, hash: nat) returns (pair: Node?<V>)
      requires Structured() && hash == hashKey(key)
      modifies this`nodes, this`size, buckets, list, nodes
      ensures Structured() && Detached(old(nodes), nodes, hashKey, key, pair)
    {
      var index := hash % primes[numBuckets];
      ghost var p;
      pair, p := FindPair(index, key, hash);
      if pair == null {
        AbsentDetached(nodes, hashKey, key);
      } else {
        KeyIsAtHome(key, p);
        RemovedDetached(nodes, hashKey, p, key);
        size := size - 1;
        Unlink(index, pair, p);
      }
    }

    /** The structure does not depend on the accounts. */
    twostate lemma StructureKept()
      requires old(Structured())
      requires unchanged(this) && unchanged(list) && unchanged(buckets) && unchanged(nodes)
      ensures Structured()
    {
    }

    /** The free functions on a pair that has just left the list, and nothing else changes. */
    method FreeDetached(pair: Node<V>, ghost was: seq<Node<V>>)
      requires pair.entry.Pair? && Structured() && ledger.Accounts(primes, numBuckets, was)
      requires |was| > |nodes|
      requires LiveKeys(was) == LiveKeys(nodes) + multiset{KeyBlock(pair)}
      requires LiveValues(was) == LiveValues(nodes) + multiset{ValueBlock(pair)}
      modifies ledger`keysFreed, ledger`valuesFreed
      ensures Valid()
    {
      ledger.Release(pair, was, nodes);
      StructureKept();
    }

    /** `hashtable_do_del`: 0 on success, -1 when the key was not found. */
    method DoDel(key: string, hash: nat) returns (r: int)
      requires Valid() && hash == hashKey(key)
      modifies this`nodes, this`size, buckets, list, nodes, ledger`keysFreed, ledger`valuesFreed
      ensures Valid()
      ensures r == if key in old(Map()) then 0 else -1
      ensures nodes == Kept(old(nodes), key) && size == old(size) + if r == 0 then -1 else 0
    {
      ghost var was := nodes;
      var pair := Detach(key, hash);
      r := -1;
      if pair != null {
        FreeDetached(pair, was);
        r := 0;
      }
    }

    /** From position k on the nodes are still chained as they were, whatever `list` is now. */
    ghost predicate OldChain(was: seq<Node<V>>, k: int)
      reads was
    {
      forall i {:trigger was[i].next} :: 0 <= i < |was| && k <= i ==>
        was[i].next == if i + 1 < |was| then was[i + 1] else list
    }

    /** One round of the rehash: save `next`, move the node to its new bucket. */
    method Relink(node: Node<V>, ghost was: seq<Node<V>>, ghost k: nat) returns (next: Node<V>)
      requires Threaded() && Indexed() && Keyed(nodes, hashKey)
      requires k < |was| && node == was[k] && Keyed(was, hashKey) && OldChain(was, k)
      requires SamePairs(was[..k], nodes) && Distinct([list] + was)
      requires forall i :: k <= i < |was| ==> was[i] !in nodes
      modifies this`nodes, buckets, list, Members(nodes), node, ledger`moved
      ensures ledger.moved == old(ledger.moved) + 1
      ensures Threaded() && Indexed() && Keyed(nodes, hashKey)
      ensures OldChain(was, k + 1) && SamePairs(was[..k + 1], nodes)
      ensures forall i :: k + 1 <= i < |was| ==> was[i] !in nodes
      ensures next == if k + 1 < |was| then was[k + 1] else list
    {
      assert node != list by { assert ([list] + was)[k + 1] == node && ([list] + was)[0] == list; }
      next := node.next;
      var index := node.entry.hash % buckets.Length;
      ghost var now := nodes;
      var p := InsertToBucket(index, node);
      assert was[..k + 1] == was[..k] + [node];
      Rehashed(was[..k], now, p, node, hashKey);
      ledger.moved := ledger.moved + 1;
    }

    lemma OldChainStart()
      requires Threaded()
      ensures OldChain(nodes, 0)
      ensures list.next == if nodes != [] then nodes[0] else list
      ensures Distinct([list] + nodes) && list !in nodes
    {
      var ring := [list] + nodes;
      assert ring[0] == list;
      forall i | 0 <= i < |nodes| ensures nodes[i].next == if i + 1 < |nodes| then nodes[i + 1] else list {
        assert ring[i + 1] == nodes[i];
      }
      forall i | 0 <= i < |nodes| ensures nodes[i] != list {
        assert ring[i + 1] == nodes[i];
      }
    }

    /** `list_init` on the sentinel: an empty ring, and the old chain hanging loose. */
    method Unhook() returns (first: Node<V>)
      requires Threaded() && Keyed(nodes, hashKey)
      requires buckets.Length > 0 && forall b :: 0 <= b < buckets.Length ==> buckets[b] == Bucket(list, list)
      modifies this`nodes, list
      ensures Threaded() && Indexed() && nodes == []
      ensures OldChain(old(nodes), 0) && Distinct([list] + old(nodes)) && list !in old(nodes)
      ensures first == if old(nodes) != [] then old(nodes)[0] else list
    {
      OldChainStart();
      first := list.next;
      ListInit(list);
      nodes := [];
      assert [list] + nodes == [list];
      FreshBuckets(list, buckets[..]);
    }

    /** The loop of `hashtable_do_rehash`: it follows the saved `next` pointers of the old ring
        while the same nodes are linked into a new one. */
    method RelinkAll()
      requires Threaded() && Keyed(nodes, hashKey)
      requires buckets.Length > 0 && forall b :: 0 <= b < buckets.Length ==> buckets[b] == Bucket(list, list)
      modifies this`nodes, buckets, list, Members(nodes), ledger`moved
      ensures Threaded() && Indexed() && Keyed(nodes, hashKey) && SamePairs(old(nodes), nodes)
      ensures ledger.moved == old(ledger.moved) + |old(nodes)|
    {
      ghost var was, k := nodes, 0;
      var node := Unhook();
      while node != list
        invariant was == old(nodes) && buckets == old(buckets)
        invariant k <= |was| && node == if k < |was| then was[k] else list
        invariant Threaded() && Indexed() && Keyed(nodes, hashKey)
        invariant OldChain(was, k) && SamePairs(was[..k], nodes)
        invariant forall i :: k <= i < |was| ==> was[i] !in nodes
        invariant Members(nodes) <= Members(was) && ledger.moved == old(ledger.moved) + k
        decreases |was| - k
      {
        assert node == was[k] && node in Members(was);
        node := Relink(node, was, k);
        k := k + 1;
        assert Members(was[..k]) <= Members(was);
      }
      assert k == |was|;
      assert was[..k] == was;
    }

    /** `hashtable_do_rehash`: the next prime, empty buckets, and the same nodes linked anew. */
    method DoRehash()
      requires Structured() && numBuckets + 1 < |primes|
      modifies this`numBuckets, this`buckets, this`nodes, list, Members(nodes), ledger`moved
      ensures Structured() && fresh(buckets) && numBuckets == old(numBuckets) + 1
      ensures SamePairs(old(nodes), nodes) && ledger.moved == old(ledger.moved) + |old(nodes)|
    {
      numBuckets := numBuckets + 1;
      buckets := NewBuckets(list, primes[numBuckets]);
      RelinkAll();
    }

    /** There is room for one more pair, and the next set is paid for. */
    ghost predicate Ready()
      reads this, Repr()
    {
      && Structured() && size < primes[numBuckets]
      && ledger.Owned(LiveKeys(nodes), LiveValues(nodes)) && ledger.Costs(primes, numBuckets, |nodes| + 1)
    }

    /** A full table grows, and the next set pays for it. */
    method Grow()
      requires Structured() && size == primes[numBuckets] && HasRoom()
      requires ledger.Owned(LiveKeys(nodes), LiveValues(nodes)) && ledger.Costs(primes, numBuckets, |nodes| + 1)
      modifies this`numBuckets, this`buckets, this`nodes, list, Members(nodes), ledger`moved
      ensures Ready() && SamePairs(old(nodes), nodes) && fresh(buckets)
      ensures numBuckets == old(numBuckets) + 1 && ledger.moved == old(ledger.moved) + old(size)
    {
      DoRehash();
    }

    /** Growing with the load: a full table moves to the next prime, once. */
    method MakeRoom()
      requires Valid() && HasRoom()
      modifies this`numBuckets, this`buckets, this`nodes, list, Members(nodes), ledger`sets, ledger`moved
      ensures Ready() && SamePairs(old(nodes), nodes) && ledger.sets == old(ledger.sets) + 1
      ensures if old(size) == primes[old(numBuckets)]
              then numBuckets == old(numBuckets) + 1 && ledger.moved == old(ledger.moved) + old(size) && fresh(buckets)
              else numBuckets == old(numBuckets) && ledger.moved == old(ledger.moved) && buckets == old(buckets)
                   && nodes == old(nodes)
    {
      ledger.sets := ledger.sets + 1;
      StructureKept();
      if size >= primes[numBuckets] {
        Grow();
      }
    }

    /** The new pair goes into the bucket of its hash. */
    method AddPair(key: Str, value: Ptr<V>, hash: nat) returns (pair: Node<V>)
      requires Structured() && size < primes[numBuckets] && hash == hashKey(key.at) && key.at !in Map()
      modifies this`nodes, this`size, buckets, list, Members(nodes)
      ensures Structured() && fresh(pair) && pair.entry == Pair(key, value, hash)
      ensures Attached(old(nodes), nodes, pair)
    {
      pair := new Node<V>(Pair(key, value, hash));
      var index := hash % primes[numBuckets];
      ghost var was := nodes;
      var p := InsertToBucket(index, pair);
      InsertAttached(was, hashKey, p, pair);
      size := size + 1;
    }

    /** The old pair of the key goes, which makes room in a table that was full to the last prime. */
    method Replace(key: string, hash: nat)
      requires Valid() && hash == hashKey(key) && RoomFor(key)
      modifies this`nodes, this`size, buckets, list, nodes, ledger`keysFreed, ledger`valuesFreed
      ensures Valid() && HasRoom() && nodes == Kept(old(nodes), key)
    {
      LastIsLargest(primes, numBuckets);
      var deleted := DoDel(key, hash);
    }

    /** The same, in terms of the map. */
    method Vacate(key: string, hash: nat)
      requires Valid() && hash == hashKey(key) && RoomFor(key)
      modifies this`nodes, this`size, buckets, list, nodes, ledger`keysFreed, ledger`valuesFreed
      ensures Valid() && HasRoom() && StandsWithout(old(nodes), nodes, key)
    {
      KeptMeans(nodes, hashKey, key);
      Replace(key, hash);
    }

    /** The first half of `hashtable_set`: the old pair of the key goes, and a full table grows. */
    method Prepare(key: string, hash: nat)
      requires Valid() && hash == hashKey(key) && RoomFor(key)
      modifies this`nodes, this`size, this`numBuckets, this`buckets, buckets, list, Members(nodes)
      modifies ledger`keysFreed, ledger`valuesFreed, ledger`sets, ledger`moved
      ensures Ready() && Map() == old(Map()) - {key}
      ensures Members(nodes) == Others(old(Members(nodes)), key)
      ensures ledger.sets == old(ledger.sets) + 1 && (buckets == old(buckets) || fresh(buckets))
    {
      Vacate(key, hash);
      MakeRoom();
    }

    /** The account of a new pair; the structure stands by. */
    ghost method TakeOver(key: Str, value: Ptr<V>, was: seq<Node<V>>, pair: Node<V>)
      requires Structured() && pair.entry.Pair? && pair.entry.key == key && pair.entry.value == value
      requires Attached(was, nodes, pair)
      requires ledger.Owned(LiveKeys(was), LiveValues(was)) && ledger.Costs(primes, numBuckets, |was| + 1)
      modifies ledger`keysGiven, ledger`valuesGiven
      ensures Valid()
      ensures ledger.keysGiven == old(ledger.keysGiven) + multiset{key.addr}
      ensures ledger.valuesGiven == old(ledger.valuesGiven) + multiset{value.addr}
    {
      ledger.Take(key, value, was, nodes, pair);
      StructureKept();
    }

    /** The rest of `hashtable_set` once there is room: the pair, and the account of it. */
    method LinkPair(key: Str, value: Ptr<V>, hash: nat) returns (pair: Node<V>)
      requires Ready() && hash == hashKey(key.at) && key.at !in Map()
      modifies this`nodes, this`size, buckets, list, Members(nodes), ledger`keysGiven, ledger`valuesGiven
      ensures Valid() && fresh(pair) && pair.entry == Pair(key, value, hash)
      ensures Map() == old(Map())[key.at := value] && Members(nodes) == old(Members(nodes)) + {pair}
      ensures ledger.keysGiven == old(ledger.keysGiven) + multiset{key.addr}
      ensures ledger.valuesGiven == old(ledger.valuesGiven) + multiset{value.addr}
    {
      ghost var was := nodes;
      pair := AddPair(key, value, hash);
      TakeOver(key, value, was, pair);
    }

    // ------------------------------------------------------------ the operations

    /** `hashtable_set`, where allocation succeeds: the old pair of the key goes, the table grows if
        it is full, and a new node takes over key and value. A table that has filled its last prime
        takes no new key, but goes on replacing. The node is the one pair of the key afterwards, and
        all others stay. */
    method Set(key: Str, value: Ptr<V>) returns (r: int, ghost pair: Node<V>)
      requires Valid() && RoomFor(key.at)
      modifies this`nodes, this`size, this`numBuckets, this`buckets, buckets, list, Members(nodes), ledger
      ensures Valid() && r == 0 && (buckets == old(buckets) || fresh(buckets))
      ensures Map() == old(Map())[key.at := value]
      ensures fresh(pair) && pair.entry == Pair(key, value, hashKey(key.at))
      ensures Members(nodes) == Others(old(Members(nodes)), key.at) + {pair}
      ensures ledger.sets == old(ledger.sets) + 1
      ensures ledger.keysGiven == old(ledger.keysGiven) + multiset{key.addr}
      ensures ledger.valuesGiven == old(ledger.valuesGiven) + multiset{value.addr}
    {
      var hash := hashKey(key.at);
      Prepare(key.at, hash);
      Overwritten(old(Map()), key.at, value);
      pair := LinkPair(key, value, hash);
      r := 0;
    }

    /** `hashtable_get`: the search of one bucket answers like the map and like a linear search of
        the whole list. */
    method Get(key: string) returns (r: Option<Ptr<V>>)
      requires Valid()
      ensures r == Lookup(Map(), key) && r == Search(nodes, key)
    {
      var hash := hashKey(key);
      var pair, p := FindPair(hash % primes[numBuckets], key, hash);
      SearchIsLookup(nodes, key);
      if pair == null {
        SearchFails(nodes, key);
        r := None;
      } else {
        SearchFinds(nodes, p);
        r := Some(pair.entry.value);
      }
    }

    /** `hashtable_del`. */
    method Del(key: string) returns (r: int)
      requires Valid()
      modifies this`nodes, this`size, buckets, list, Members(nodes), ledger`keysFreed, ledger`valuesFreed
      ensures Valid()
      ensures r == if key in old(Map()) then 0 else -1
      ensures nodes == Kept(old(nodes), key)
    {
      r := DoDel(key, hashKey(key));
    }

    /** `hashtable_iter_next` from the sentinel (q == 0) or from the pair at position q - 1. */
    method IterNext(iter: Node<V>, ghost q: nat) returns (r: Node?<V>)
      requires Valid() && q <= |nodes| && iter == ([list] + nodes)[q]
      ensures r == if q < |nodes| then nodes[q] else null
    {
      ghost var ring := [list] + nodes;
      assert iter.next == ring[After(q, |ring|)];
      assert q < |nodes| ==> ring[q + 1] == nodes[q] && ring[q + 1] != ring[0];
      if iter.next == list {
        r := null;
      } else {
        r := iter.next;
      }
    }

    /** `hashtable_iter`. */
    method Iter() returns (r: Node?<V>)
      requires Valid()
      ensures r == if nodes != [] then nodes[0] else null
    {
      assert ([list] + nodes)[0] == list;
      r := IterNext(list, 0);
    }

    /** The free functions on the pair at position k, all pairs before it being freed already. */
    method FreePair(node: Node<V>, ghost k: nat)
      requires k < |nodes| && node == nodes[k] && node.entry.Pair?
      requires ledger.Owned(LiveKeys(nodes[k..]), LiveValues(nodes[k..]))
      modifies ledger`keysFreed, ledger`valuesFreed
      ensures ledger.Owned(LiveKeys(nodes[k + 1..]), LiveValues(nodes[k + 1..]))
    {
      FirstLive(nodes, k);
      ledger.Release(node, nodes[k..], nodes[k + 1..]);
    }

    /** Before round k of `hashtable_close`: the pairs up to k have been released, the rest are still
        chained and owned. */
    ghost predicate Closing(node: Node<V>, k: nat, released: set<Node<V>>)
      reads this, nodes, ledger
    {
      && k <= |nodes| && node == (if k < |nodes| then nodes[k] else list) && released == Members(nodes[..k])
      && OldChain(nodes, 0) && Keyed(nodes, hashKey) && Distinct([list] + nodes) && list !in nodes
      && ledger.Owned(LiveKeys(nodes[k..]), LiveValues(nodes[k..]))
    }

    lemma CloseBegins()
      requires Valid()
      ensures Closing(list.next, 0, {})
    {
      OldChainStart();
      assert nodes[0..] == nodes;
    }

    /** One round: a pair that has not been released is, and `next` was read before. */
    method CloseRound(node: Node<V>, ghost k: nat, ghost released: set<Node<V>>) returns (next: Node<V>)
      requires Closing(node, k, released) && node != list
      modifies ledger`keysFreed, ledger`valuesFreed
      ensures node !in released && Closing(next, k + 1, released + {node})
    {
      NotYetFreed(nodes, k);
      next := node.next;
      FreePair(node, k);
    }

    lemma CloseEnds(k: nat, released: set<Node<V>>)
      requires Closing(list, k, released)
      ensures ledger.Owned(multiset{}, multiset{})
    {
      assert k == |nodes|;
      NothingLive(nodes[k..]);
    }

    /** `hashtable_close`: `next` is saved before the pair is freed, and no freed pair is read. */
    method Close()
      requires Valid()
      modifies ledger`keysFreed, ledger`valuesFreed
      ensures ledger.Owned(multiset{}, multiset{})
    {
      CloseBegins();
      ghost var released: set<Node<V>>, k := {}, 0;
      var node := list.next;
      while node != list
        invariant Closing(node, k, released)
        decreases |nodes| - k
      {
        var next := CloseRound(node, k, released);
        released := released + {node};
        node, k := next, k + 1;
      }
      CloseEnds(k, released);
    }

    lemma NotYetFreed(s: seq<Node<V>>, k: nat)
      requires k < |s| && Distinct([list] + s)
      ensures s[k] !in Members(s[..k]) && Members(s[..k + 1]) == Members(s[..k]) + {s[k]}
    {
      assert s[..k + 1] == s[..k] + [s[k]];
      forall n | n in s[..k] ensures n != s[k] {
        var i :| 0 <= i < k && s[i] == n;
        assert ([list] + s)[i + 1] != ([list] + s)[k + 1];
      }
    }

    lemma FirstLive(s: seq<Node<V>>, k: nat)
      requires k < |s|
      ensures LiveKeys(s[k..]) == LiveKeys(s[k + 1..]) + multiset{KeyBlock(s[k])}
      ensures LiveValues(s[k..]) == LiveValues(s[k + 1..]) + multiset{ValueBlock(s[k])}
    {
      assert Removed(s[k..], 0) == s[k + 1..];
      LiveRemoved(s[k..], 0);
    }
  }
}
