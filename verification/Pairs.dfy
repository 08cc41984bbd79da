/** What the list of pairs stands for: a map from key texts to values, and the blocks it owns. */
module Pairs {
  import opened Options
  import opened ListRing

  /** Every node is a pair that carries the hash of its key, and no key occurs twice. */
  ghost predicate Keyed<V>(nodes: seq<Node<V>>, hashKey: string -> nat) {
    && (forall i :: 0 <= i < |nodes| ==> nodes[i].entry.Pair? && nodes[i].entry.hash == hashKey(nodes[i].entry.key.at))
    && DistinctKeys(nodes)
  }

  predicate HasKey<V>(node: Node<V>, key: string) {
    node.entry.Pair? && node.entry.key.at == key
  }

  ghost predicate DistinctKeys<V>(nodes: seq<Node<V>>) {
    && (forall i :: 0 <= i < |nodes| ==> nodes[i].entry.Pair?)
    && (forall i, j :: 0 <= i < j < |nodes| ==> !HasKey(nodes[j], nodes[i].entry.key.at))
  }

  ghost function Members<V>(nodes: seq<Node<V>>): set<Node<V>> {
    set n | n in nodes
  }

  /** The members that do not have a key. */
  ghost function Others<V>(members: set<Node<V>>, key: string): set<Node<V>> {
    set n | n in members && !HasKey(n, key)
  }

  /** The list without the pairs of a key, in the same order. */
  function Kept<V>(nodes: seq<Node<V>>, key: string): seq<Node<V>> {
    if nodes == [] then
      []
    else
      var last := nodes[|nodes| - 1];
      Kept(nodes[..|nodes| - 1], key) + if HasKey(last, key) then [] else [last]
  }

  ghost predicate Holds<V>(nodes: seq<Node<V>>, key: string) {
    exists i :: 0 <= i < |nodes| && HasKey(nodes[i], key)
  }

  ghost function Held<V>(nodes: seq<Node<V>>, key: string): Ptr<V>
    requires Holds(nodes, key)
  {
    var i :| 0 <= i < |nodes| && HasKey(nodes[i], key);
    nodes[i].entry.value
  }

  /** The table as a map from key texts to value pointers. */
  ghost function Contents<V>(nodes: seq<Node<V>>): (m: map<string, Ptr<V>>)
    ensures forall k :: k in m <==> Holds(nodes, k)
  {
    var keys := set n | n in nodes && n.entry.Pair? :: n.entry.key.at;
    assert forall k :: k in keys <==> Holds(nodes, k) by { KeySet(nodes, keys); }
    map k | k in keys :: Held(nodes, k)
  }

  lemma KeySet<V>(nodes: seq<Node<V>>, keys: set<string>)
    requires keys == set n | n in nodes && n.entry.Pair? :: n.entry.key.at
    ensures forall k :: k in keys <==> Holds(nodes, k)
  {
    forall k | Holds(nodes, k) ensures k in keys {
      var i :| 0 <= i < |nodes| && HasKey(nodes[i], k);
      assert nodes[i] in nodes;
    }
  }

  /** The linear search of the whole list. */
  function Search<V>(nodes: seq<Node<V>>, key: string): Option<Ptr<V>> {
    if nodes == [] then
      None
    else if HasKey(nodes[0], key) then
      Some(nodes[0].entry.value)
    else
      Search(nodes[1..], key)
  }

  function Lookup<V>(m: map<string, V>, key: string): Option<V> {
    if key in m then Some(m[key]) else None
  }

  /** A key determines its position. */
  lemma OnlyAt<V>(nodes: seq<Node<V>>, p: nat)
    requires DistinctKeys(nodes) && p < |nodes|
    ensures forall i :: 0 <= i < |nodes| && i != p ==> !HasKey(nodes[i], nodes[p].entry.key.at)
  {
    assert forall j :: 0 <= j < p ==> !HasKey(nodes[p], nodes[j].entry.key.at);
  }

  /** So the map holds the value at that position. */
  lemma ContentsAt<V>(nodes: seq<Node<V>>, i: nat)
    requires DistinctKeys(nodes) && i < |nodes|
    ensures var e := nodes[i].entry; e.key.at in Contents(nodes) && Contents(nodes)[e.key.at] == e.value
  {
    assert HasKey(nodes[i], nodes[i].entry.key.at);
    OnlyAt(nodes, i);
  }

  lemma InsertedHolds<V>(nodes: seq<Node<V>>, p: nat, x: Node<V>, key: string)
    requires p <= |nodes|
    ensures Holds(Inserted(nodes, p, x), key) <==> Holds(nodes, key) || HasKey(x, key)
  {
    var now := Inserted(nodes, p, x);
    if i :| 0 <= i < |nodes| && HasKey(nodes[i], key) {
      assert HasKey(now[if i < p then i else i + 1], key);
    }
    if HasKey(x, key) {
      assert HasKey(now[p], key);
    }
  }

  /** An old key keeps its value when a pair with another key is inserted. */
  lemma InsertedValue<V>(nodes: seq<Node<V>>, p: nat, x: Node<V>, key: string)
    requires p <= |nodes| && DistinctKeys(nodes) && DistinctKeys(Inserted(nodes, p, x)) && Holds(nodes, key)
    ensures Holds(Inserted(nodes, p, x), key)
    ensures Contents(Inserted(nodes, p, x))[key] == Contents(nodes)[key]
  {
    var i: nat :| i < |nodes| && HasKey(nodes[i], key);
    var j := if i < p then i else i + 1;
    assert Inserted(nodes, p, x)[j] == nodes[i];
    ContentsAt(nodes, i);
    ContentsAt(Inserted(nodes, p, x), j);
  }

  lemma ContentsInserted<V>(nodes: seq<Node<V>>, p: nat, x: Node<V>)
    requires p <= |nodes| && x.entry.Pair? && DistinctKeys(nodes) && DistinctKeys(Inserted(nodes, p, x))
    ensures Contents(Inserted(nodes, p, x)) == Contents(nodes)[x.entry.key.at := x.entry.value]
  {
    var now, was, key := Contents(Inserted(nodes, p, x)), Contents(nodes), x.entry.key.at;
    ContentsAt(Inserted(nodes, p, x), p);
    assert now[key] == x.entry.value;
    forall k ensures k in now <==> k in was || k == key {
      InsertedHolds(nodes, p, x, k);
    }
    forall k | k in was && k != key ensures now[k] == was[k] {
      InsertedValue(nodes, p, x, k);
    }
  }

  lemma RemovedLacksKey<V>(nodes: seq<Node<V>>, p: nat)
    requires DistinctKeys(nodes) && p < |nodes|
    ensures forall i :: 0 <= i < |nodes| - 1 ==>
              Removed(nodes, p)[i].entry.Pair? && !HasKey(Removed(nodes, p)[i], nodes[p].entry.key.at)
  {
    var rest := Removed(nodes, p);
    forall i | 0 <= i < |rest| ensures rest[i].entry.Pair? && !HasKey(rest[i], nodes[p].entry.key.at) {
      var k := if i < p then i else i + 1;
      assert rest[i] == nodes[k];
      if k < p { assert !HasKey(nodes[p], nodes[k].entry.key.at); }
    }
  }

  lemma DropKey<V>(m: map<string, V>, k: string, v: V)
    requires k !in m
    ensures m[k := v] - {k} == m
  {
  }

  lemma Overwritten<V>(m: map<string, V>, k: string, v: V)
    ensures (m - {k})[k := v] == m[k := v]
  {
  }

  lemma ContentsRemoved<V>(nodes: seq<Node<V>>, p: nat)
    requires DistinctKeys(nodes) && p < |nodes|
    ensures Contents(Removed(nodes, p)) == Contents(nodes) - {nodes[p].entry.key.at}
  {
    var rest, x := Removed(nodes, p), nodes[p];
    RemovedLacksKey(nodes, p);
    assert nodes == Inserted(rest, p, x);
    assert DistinctKeys(rest) by { RemovedDistinct(nodes, p); }
    ContentsInserted(rest, p, x);
    DropKey(Contents(rest), x.entry.key.at, x.entry.value);
  }

  lemma RemovedDistinct<V>(nodes: seq<Node<V>>, p: nat)
    requires DistinctKeys(nodes) && p < |nodes|
    ensures DistinctKeys(Removed(nodes, p))
  {
  }

  lemma GrowMap<V>(m: map<string, V>, k: string, v: V)
    requires k !in m
    ensures |m[k := v]| == |m| + 1
  {
  }

  /** The map has as many keys as the list has pairs. */
  lemma {:induction false} CountKeys<V>(nodes: seq<Node<V>>)
    requires DistinctKeys(nodes)
    ensures |Contents(nodes)| == |nodes|
  {
    if nodes == [] {
      assert Contents(nodes) == map[];
    } else {
      var head, last := nodes[..|nodes| - 1], nodes[|nodes| - 1];
      assert nodes == Inserted(head, |head|, last);
      RemovedDistinct(nodes, |head|);
      assert head == Removed(nodes, |head|);
      CountKeys(head);
      ContentsInserted(head, |head|, last);
      OnlyAt(nodes, |head|);
      GrowMap(Contents(head), last.entry.key.at, last.entry.value);
    }
  }

  lemma {:induction false} SearchFails<V>(nodes: seq<Node<V>>, key: string)
    requires forall i :: 0 <= i < |nodes| ==> !HasKey(nodes[i], key)
    ensures Search(nodes, key) == None
  {
    if nodes != [] {
      SearchFails(nodes[1..], key);
    }
  }

  lemma {:induction false} SearchFinds<V>(nodes: seq<Node<V>>, i: nat)
    requires DistinctKeys(nodes) && i < |nodes|
    ensures Search(nodes, nodes[i].entry.key.at) == Some(nodes[i].entry.value)
  {
    if i > 0 {
      SearchFinds(nodes[1..], i - 1);
      assert !HasKey(nodes[i], nodes[0].entry.key.at);
    }
  }

  /** A linear search of the list answers like the map. */
  lemma SearchIsLookup<V>(nodes: seq<Node<V>>, key: string)
    requires DistinctKeys(nodes)
    ensures Search(nodes, key) == Lookup(Contents(nodes), key)
  {
    if i: nat :| i < |nodes| && HasKey(nodes[i], key) {
      SearchFinds(nodes, i);
      ContentsAt(nodes, i);
    } else {
      SearchFails(nodes, key);
    }
  }

  lemma InsertKeepsKeyed<V>(nodes: seq<Node<V>>, hashKey: string -> nat, p: nat, x: Node<V>)
    requires Keyed(nodes, hashKey) && p <= |nodes|
    requires x.entry.Pair? && x.entry.hash == hashKey(x.entry.key.at)
    requires forall i :: 0 <= i < |nodes| ==> !HasKey(nodes[i], x.entry.key.at)
    ensures Keyed(Inserted(nodes, p, x), hashKey)
  {
  }

  lemma RemoveKeepsKeyed<V>(nodes: seq<Node<V>>, hashKey: string -> nat, p: nat)
    requires Keyed(nodes, hashKey) && p < |nodes|
    ensures Keyed(Removed(nodes, p), hashKey)
    ensures forall i :: 0 <= i < |nodes| - 1 ==> !HasKey(Removed(nodes, p)[i], nodes[p].entry.key.at)
  {
    RemovedLacksKey(nodes, p);
  }

  // ---------------------------------------------------------------- ownership

  /** The block of a pair's key, as an address; the sentinel has none. */
  function KeyBlock<V>(node: Node<V>): nat {
    if node.entry.Pair? then node.entry.key.addr else 0
  }

  function ValueBlock<V>(node: Node<V>): nat {
    if node.entry.Pair? then node.entry.value.addr else 0
  }

  ghost function Mapped<V>(nodes: seq<Node<V>>, f: Node<V> -> nat): seq<nat> {
    seq(|nodes|, i requires 0 <= i < |nodes| => f(nodes[i]))
  }

  /** The key blocks the list refers to, and how often. */
  ghost function LiveKeys<V>(nodes: seq<Node<V>>): multiset<nat> {
    multiset(Mapped(nodes, KeyBlock))
  }

  ghost function LiveValues<V>(nodes: seq<Node<V>>): multiset<nat> {
    multiset(Mapped(nodes, ValueBlock))
  }

  lemma NothingLive<V>(nodes: seq<Node<V>>)
    requires nodes == []
    ensures LiveKeys(nodes) == LiveValues(nodes) == multiset{}
  {
  }

  lemma LiveAt<V>(nodes: seq<Node<V>>, i: nat)
    requires i < |nodes|
    ensures KeyBlock(nodes[i]) in LiveKeys(nodes) && ValueBlock(nodes[i]) in LiveValues(nodes)
  {
    assert Mapped(nodes, KeyBlock)[i] == KeyBlock(nodes[i]);
    assert Mapped(nodes, ValueBlock)[i] == ValueBlock(nodes[i]);
  }

  lemma MappedInserted<V>(nodes: seq<Node<V>>, p: nat, x: Node<V>, f: Node<V> -> nat)
    requires p <= |nodes|
    ensures multiset(Mapped(Inserted(nodes, p, x), f)) == multiset(Mapped(nodes, f)) + multiset{f(x)}
  {
    var s := Mapped(nodes, f);
    assert Mapped(Inserted(nodes, p, x), f) == s[..p] + [f(x)] + s[p..];
    assert s == s[..p] + s[p..];
  }

  lemma LiveInserted<V>(nodes: seq<Node<V>>, p: nat, x: Node<V>)
    requires p <= |nodes|
    ensures LiveKeys(Inserted(nodes, p, x)) == LiveKeys(nodes) + multiset{KeyBlock(x)}
    ensures LiveValues(Inserted(nodes, p, x)) == LiveValues(nodes) + multiset{ValueBlock(x)}
  {
    MappedInserted(nodes, p, x, KeyBlock);
    MappedInserted(nodes, p, x, ValueBlock);
  }

  lemma LiveRemoved<V>(nodes: seq<Node<V>>, p: nat)
    requires p < |nodes|
    ensures LiveKeys(nodes) == LiveKeys(Removed(nodes, p)) + multiset{KeyBlock(nodes[p])}
    ensures LiveValues(nodes) == LiveValues(Removed(nodes, p)) + multiset{ValueBlock(nodes[p])}
  {
    assert nodes == Inserted(Removed(nodes, p), p, nodes[p]);
    LiveInserted(Removed(nodes, p), p, nodes[p]);
  }

  /** How the pairs and what they own change when the pair with a key, if any, goes. */
  ghost predicate Detached<V>(was: seq<Node<V>>, now: seq<Node<V>>, hashKey: string -> nat, key: string,
                              pair: Node?<V>)
  {
    && Keyed(now, hashKey) && now == Kept(was, key)
    && (pair == null <==> key !in Contents(was))
    && (pair == null ==> now == was)
    && (pair != null ==>
          && pair.entry.Pair? && |now| == |was| - 1
          && LiveKeys(was) == LiveKeys(now) + multiset{KeyBlock(pair)}
          && LiveValues(was) == LiveValues(now) + multiset{ValueBlock(pair)})
  }

  lemma {:induction false} KeptAll<V>(nodes: seq<Node<V>>, key: string)
    requires forall i :: 0 <= i < |nodes| ==> !HasKey(nodes[i], key)
    ensures Kept(nodes, key) == nodes
  {
    if nodes != [] {
      KeptAll(nodes[..|nodes| - 1], key);
    }
  }

  lemma {:induction false} KeptRemoved<V>(nodes: seq<Node<V>>, p: nat, key: string)
    requires p < |nodes| && HasKey(nodes[p], key)
    requires forall i :: 0 <= i < |nodes| && i != p ==> !HasKey(nodes[i], key)
    ensures Kept(nodes, key) == Removed(nodes, p)
  {
    var n := |nodes| - 1;
    if p == n {
      KeptAll(nodes[..n], key);
    } else {
      KeptRemoved(nodes[..n], p, key);
    }
  }

  lemma RemovedMembers<V>(was: seq<Node<V>>, hashKey: string -> nat, p: nat)
    requires Keyed(was, hashKey) && p < |was|
    ensures Members(Removed(was, p)) == Others(Members(was), was[p].entry.key.at)
  {
    var rest := Removed(was, p);
    RemoveKeepsKeyed(was, hashKey, p);
    forall n | n in was && !HasKey(n, was[p].entry.key.at) ensures n in rest {
      var i :| 0 <= i < |was| && was[i] == n;
      assert rest[if i < p then i else i - 1] == n;
    }
  }

  lemma RemovedDetached<V>(was: seq<Node<V>>, hashKey: string -> nat, p: nat, key: string)
    requires Keyed(was, hashKey) && p < |was| && HasKey(was[p], key)
    ensures Detached(was, Removed(was, p), hashKey, key, was[p])
  {
    ContentsAt(was, p);
    RemoveKeepsKeyed(was, hashKey, p);
    LiveRemoved(was, p);
    OnlyAt(was, p);
    KeptRemoved(was, p, key);
  }

  lemma AbsentDetached<V>(was: seq<Node<V>>, hashKey: string -> nat, key: string)
    requires Keyed(was, hashKey) && forall i :: 0 <= i < |was| ==> !HasKey(was[i], key)
    ensures Detached(was, was, hashKey, key, null)
  {
    assert !Holds(was, key);
    KeptAll(was, key);
  }

  /** Without the pair of a key, the list stands for the map without the key. */
  ghost predicate StandsWithout<V>(was: seq<Node<V>>, now: seq<Node<V>>, key: string) {
    && Contents(now) == Contents(was) - {key}
    && Members(now) == Others(Members(was), key)
    && |now| == |was| - if key in Contents(was) then 1 else 0
  }

  lemma RemovedMeans<V>(was: seq<Node<V>>, hashKey: string -> nat, p: nat)
    requires Keyed(was, hashKey) && p < |was|
    ensures StandsWithout(was, Removed(was, p), was[p].entry.key.at)
  {
    ContentsRemoved(was, p);
    ContentsAt(was, p);
    RemovedMembers(was, hashKey, p);
  }

  lemma KeptMeans<V>(was: seq<Node<V>>, hashKey: string -> nat, key: string)
    requires Keyed(was, hashKey)
    ensures StandsWithout(was, Kept(was, key), key)
  {
    if p: nat :| p < |was| && HasKey(was[p], key) {
      OnlyAt(was, p);
      KeptRemoved(was, p, key);
      RemovedMeans(was, hashKey, p);
    } else {
      KeptAll(was, key);
      assert !Holds(was, key);
    }
  }

  /** The same pairs in another order. */
  ghost predicate SamePairs<V>(a: seq<Node<V>>, b: seq<Node<V>>) {
    && |a| == |b| && Members(a) == Members(b) && Contents(a) == Contents(b)
    && LiveKeys(a) == LiveKeys(b) && LiveValues(a) == LiveValues(b)
  }

  lemma MembersInserted<V>(nodes: seq<Node<V>>, p: nat, x: Node<V>)
    requires p <= |nodes|
    ensures Members(Inserted(nodes, p, x)) == Members(nodes) + {x}
  {
    var now := Inserted(nodes, p, x);
    forall n | n in nodes ensures n in now {
      var i :| 0 <= i < |nodes| && nodes[i] == n;
      assert now[if i < p then i else i + 1] == n;
    }
    assert now[p] == x;
  }

  /** Appending a pair to one list and inserting it into the other. */
  lemma SamePairsInserted<V>(a: seq<Node<V>>, b: seq<Node<V>>, p: nat, x: Node<V>)
    requires SamePairs(a, b) && p <= |b| && x.entry.Pair?
    requires DistinctKeys(a) && DistinctKeys(b) && DistinctKeys(a + [x]) && DistinctKeys(Inserted(b, p, x))
    ensures SamePairs(a + [x], Inserted(b, p, x))
  {
    assert a + [x] == Inserted(a, |a|, x);
    MembersInserted(a, |a|, x);
    MembersInserted(b, p, x);
    ContentsInserted(a, |a|, x);
    ContentsInserted(b, p, x);
    LiveInserted(a, |a|, x);
    LiveInserted(b, p, x);
  }

  /** A key that no member has is not a key of the list. */
  lemma NewKey<V>(a: seq<Node<V>>, b: seq<Node<V>>, x: Node<V>, hashKey: string -> nat)
    requires x.entry.Pair? && Keyed(a + [x], hashKey) && Keyed(b, hashKey) && Members(a) == Members(b)
    ensures forall i :: 0 <= i < |b| ==> !HasKey(b[i], x.entry.key.at)
  {
    assert (a + [x])[|a|] == x;
    forall i | 0 <= i < |b| ensures !HasKey(b[i], x.entry.key.at) {
      assert b[i] in Members(a);
      var j :| 0 <= j < |a| && a[j] == b[i];
      assert (a + [x])[j] == b[i] && !HasKey((a + [x])[|a|], (a + [x])[j].entry.key.at);
    }
  }

  /** One round of the rehash on the pairs: `done` have been moved into `now`, and x follows. */
  lemma Rehashed<V>(done: seq<Node<V>>, now: seq<Node<V>>, p: nat, x: Node<V>, hashKey: string -> nat)
    requires SamePairs(done, now) && p <= |now| && Keyed(done + [x], hashKey) && Keyed(now, hashKey)
    ensures Keyed(Inserted(now, p, x), hashKey) && SamePairs(done + [x], Inserted(now, p, x))
  {
    assert (done + [x])[|done|] == x;
    NewKey(done, now, x, hashKey);
    InsertKeepsKeyed(now, hashKey, p, x);
    assert DistinctKeys(done) by { KeyedPrefix(done, x, hashKey); }
    SamePairsInserted(done, now, p, x);
  }

  lemma KeyedPrefix<V>(done: seq<Node<V>>, x: Node<V>, hashKey: string -> nat)
    requires Keyed(done + [x], hashKey)
    ensures Keyed(done, hashKey)
  {
    var s := done + [x];
    assert forall i :: 0 <= i < |done| ==> s[i] == done[i];
  }

  /** How the pairs and what they own change when a pair with a new key comes. */
  ghost predicate Attached<V>(was: seq<Node<V>>, now: seq<Node<V>>, x: Node<V>)
    requires x.entry.Pair?
  {
    && |now| == |was| + 1 && Members(now) == Members(was) + {x}
    && Contents(now) == Contents(was)[x.entry.key.at := x.entry.value]
    && LiveKeys(now) == LiveKeys(was) + multiset{x.entry.key.addr}
    && LiveValues(now) == LiveValues(was) + multiset{x.entry.value.addr}
  }

  lemma InsertAttached<V>(was: seq<Node<V>>, hashKey: string -> nat, p: nat, x: Node<V>)
    requires Keyed(was, hashKey) && p <= |was|
    requires x.entry.Pair? && x.entry.hash == hashKey(x.entry.key.at) && x.entry.key.at !in Contents(was)
    ensures Keyed(Inserted(was, p, x), hashKey) && Attached(was, Inserted(was, p, x), x)
  {
    assert !Holds(was, x.entry.key.at);
    InsertKeepsKeyed(was, hashKey, p, x);
    ContentsInserted(was, p, x);
    LiveInserted(was, p, x);
    MembersInserted(was, p, x);
  }

  /** Everything handed over has either been freed or is live. */
  ghost predicate Balanced<T>(frees: bool, given: multiset<T>, freed: multiset<T>, live: multiset<T>) {
    live <= given && if frees then given == freed + live else freed == multiset{}
  }

  /** What has been freed after the free function, unless it is NULL, was called on x. */
  ghost function Freed<T>(frees: bool, freed: multiset<T>, x: T): multiset<T> {
    if frees then freed + multiset{x} else freed
  }

  lemma FreeBalanced<T>(frees: bool, given: multiset<T>, freed: multiset<T>, live: multiset<T>, x: T)
    requires Balanced(frees, given, freed, live + multiset{x})
    ensures Balanced(frees, given, Freed(frees, freed, x), live)
  {
  }

  lemma GiveBalanced<T>(frees: bool, given: multiset<T>, freed: multiset<T>, live: multiset<T>, x: T)
    requires Balanced(frees, given, freed, live)
    ensures Balanced(frees, given + multiset{x}, freed, live + multiset{x})
  {
  }
}
