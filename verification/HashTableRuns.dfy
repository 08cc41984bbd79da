/** Whole runs of the hash table: any sequence of sets, gets and deletes behaves like a map, pays
    for its growth, and gives every block back; iteration meets every pair once. */
module HashTableRuns {
  import opened Options
  import opened ListRing
  import opened Pairs
  import opened Primes
  import opened HashTables

  datatype Op<V> = SetOp(key: Str, value: Ptr<V>) | GetOp(name: string) | DelOp(name: string)

  datatype Answer<V> = Done(code: int) | Found(value: Option<Ptr<V>>)

  /** The value of the last set of the key that no delete follows. */
  function LastSet<V>(ops: seq<Op<V>>, key: string): Option<Ptr<V>> {
    if ops == [] then
      None
    else
      match ops[|ops| - 1]
      case SetOp(k, v) => if k.at == key then Some(v) else LastSet(ops[..|ops| - 1], key)
      case DelOp(n) => if n == key then None else LastSet(ops[..|ops| - 1], key)
      case GetOp(_) => LastSet(ops[..|ops| - 1], key)
  }

  /** An operation that sets or deletes the key. */
  predicate Names<V>(op: Op<V>, key: string) {
    match op
    case SetOp(k, _) => k.at == key
    case DelOp(n) => n == key
    case GetOp(_) => false
  }

  /** The history answers with the value of the last operation that names the key, if that was a set. */
  lemma {:induction false} LastSetMeans<V>(ops: seq<Op<V>>, key: string, i: nat)
    requires i < |ops| && Names(ops[i], key) && forall j :: i < j < |ops| ==> !Names(ops[j], key)
    ensures LastSet(ops, key) == if ops[i].SetOp? then Some(ops[i].value) else None
  {
    if i + 1 < |ops| {
      assert !Names(ops[|ops| - 1], key);
      LastSetMeans(ops[..|ops| - 1], key, i);
    }
  }

  lemma {:induction false} NeverSet<V>(ops: seq<Op<V>>, key: string)
    requires forall j :: 0 <= j < |ops| ==> !Names(ops[j], key)
    ensures LastSet(ops, key) == None
  {
    if ops != [] {
      assert !Names(ops[|ops| - 1], key);
      NeverSet(ops[..|ops| - 1], key);
    }
  }

  /** What an operation answers after the operations before it. */
  function Expected<V>(before: seq<Op<V>>, op: Op<V>): Answer<V> {
    match op
    case SetOp(_, _) => Done(0)
    case GetOp(n) => Found(LastSet(before, n))
    case DelOp(n) => Done(if LastSet(before, n).Some? then 0 else -1)
  }

  function Effect<V>(m: map<string, Ptr<V>>, op: Op<V>): map<string, Ptr<V>> {
    match op
    case SetOp(k, v) => m[k.at := v]
    case DelOp(n) => m - {n}
    case GetOp(_) => m
  }

  /** The map that the operations make of an empty one. */
  function MapAfter<V>(ops: seq<Op<V>>): map<string, Ptr<V>> {
    if ops == [] then map[] else Effect(MapAfter(ops[..|ops| - 1]), ops[|ops| - 1])
  }

  /** It answers every lookup like the history does. */
  lemma {:induction false} MapAnswersLikeHistory<V>(ops: seq<Op<V>>)
    ensures forall k :: Lookup(MapAfter(ops), k) == LastSet(ops, k)
  {
    if ops != [] {
      MapAnswersLikeHistory(ops[..|ops| - 1]);
    }
  }

  /** The key blocks handed over, by address. */
  function KeysOf<V>(ops: seq<Op<V>>): multiset<nat> {
    if ops == [] then
      multiset{}
    else
      var m := KeysOf(ops[..|ops| - 1]);
      if ops[|ops| - 1].SetOp? then m + multiset{ops[|ops| - 1].key.addr} else m
  }

  function ValuesOf<V>(ops: seq<Op<V>>): multiset<nat> {
    if ops == [] then
      multiset{}
    else
      var m := ValuesOf(ops[..|ops| - 1]);
      if ops[|ops| - 1].SetOp? then m + multiset{ops[|ops| - 1].value.addr} else m
  }

  /** The operation may unlink the node. */
  predicate Touches<V>(op: Op<V>, node: Node<V>) {
    match op
    case SetOp(k, _) => HasKey(node, k.at)
    case DelOp(n) => HasKey(node, n)
    case GetOp(_) => false
  }

  /** It may if it sets or deletes the key of the node, and only then. */
  lemma TouchesMeans<V>(op: Op<V>, node: Node<V>)
    ensures Touches(op, node) <==> node.entry.Pair? && Names(op, node.entry.key.at)
  {
  }

  predicate Untouched<V>(ops: seq<Op<V>>, node: Node<V>) {
    forall i :: 0 <= i < |ops| ==> !Touches(ops[i], node)
  }

  function SetCount<V>(ops: seq<Op<V>>): nat {
    if ops == [] then 0 else SetCount(ops[..|ops| - 1]) + if ops[|ops| - 1].SetOp? then 1 else 0
  }

  /** At no time are there more keys than the limit. */
  ghost predicate Fits<V>(before: seq<Op<V>>, ops: seq<Op<V>>, limit: nat) {
    forall i :: 0 <= i <= |ops| ==> |MapAfter(before + ops[..i])| <= limit
  }

  /** The table stands where the operations have brought it. */
  ghost predicate Tracks<V>(t: HashTable<V>, ops: seq<Op<V>>)
    reads t, t.Repr()
  {
    && t.Valid() && t.Map() == MapAfter(ops) && t.ledger.sets == SetCount(ops)
    && t.ledger.keysGiven == KeysOf(ops) && t.ledger.valuesGiven == ValuesOf(ops)
  }

  /** What the history functions say of one more operation. */
  lemma OneMore<V>(done: seq<Op<V>>, op: Op<V>)
    ensures MapAfter(done + [op]) == Effect(MapAfter(done), op)
    ensures SetCount(done + [op]) == SetCount(done) + if op.SetOp? then 1 else 0
    ensures KeysOf(done + [op]) == KeysOf(done) + if op.SetOp? then multiset{op.key.addr} else multiset{}
    ensures ValuesOf(done + [op]) == ValuesOf(done) + if op.SetOp? then multiset{op.value.addr} else multiset{}
  {
    assert (done + [op])[..|done|] == done;
  }

  /** `hashtable_set`, with the nodes and objects of the table in view. */
  method SetIn<V>(t: HashTable<V>, key: Str, value: Ptr<V>) returns (r: int)
    requires t.Valid() && t.RoomFor(key.at)
    modifies t.Repr()
    ensures t.Valid() && r == 0 && t.Map() == old(t.Map())[key.at := value]
    ensures t.ledger.sets == old(t.ledger.sets) + 1
    ensures t.ledger.keysGiven == old(t.ledger.keysGiven) + multiset{key.addr}
    ensures t.ledger.valuesGiven == old(t.ledger.valuesGiven) + multiset{value.addr}
    ensures forall n :: n in old(Members(t.nodes)) && !HasKey(n, key.at) ==> n in Members(t.nodes)
    ensures forall o :: o in t.Repr() ==> o in old(t.Repr()) || fresh(o)
  {
    ghost var pair;
    r, pair := t.Set(key, value);
  }

  method StepSet<V>(t: HashTable<V>, ghost before: seq<Op<V>>, op: Op<V>) returns (a: Answer<V>)
    requires op.SetOp? && Tracks(t, before) && t.RoomFor(op.key.at)
    modifies t.Repr()
    ensures Tracks(t, before + [op]) && a == Expected(before, op)
    ensures forall n :: n in old(Members(t.nodes)) && !Touches(op, n) ==> n in Members(t.nodes)
    ensures forall o :: o in t.Repr() ==> o in old(t.Repr()) || fresh(o)
  {
    OneMore(before, op);
    var r := SetIn(t, op.key, op.value);
    a := Done(r);
  }

  method StepDel<V>(t: HashTable<V>, ghost before: seq<Op<V>>, op: Op<V>) returns (a: Answer<V>)
    requires op.DelOp? && Tracks(t, before)
    modifies t.Repr()
    ensures Tracks(t, before + [op]) && a == Expected(before, op)
    ensures forall n :: n in old(Members(t.nodes)) && !Touches(op, n) ==> n in Members(t.nodes)
    ensures forall o :: o in t.Repr() ==> o in old(t.Repr())
  {
    OneMore(before, op);
    KeptMeans(t.nodes, t.hashKey, op.name);
    MapAnswersLikeHistory(before);
    assert Lookup(t.Map(), op.name) == LastSet(before, op.name);
    var r := t.Del(op.name);
    a := Done(r);
  }

  method StepGet<V>(t: HashTable<V>, ghost before: seq<Op<V>>, op: Op<V>) returns (a: Answer<V>)
    requires op.GetOp? && Tracks(t, before)
    ensures Tracks(t, before + [op]) && a == Expected(before, op)
  {
    OneMore(before, op);
    MapAnswersLikeHistory(before);
    var r := t.Get(op.name);
    a := Found(r);
  }

  /** One operation on a table that has seen `before`. */
  method Step<V>(t: HashTable<V>, ghost before: seq<Op<V>>, op: Op<V>) returns (a: Answer<V>)
    requires Tracks(t, before) && (op.SetOp? ==> t.RoomFor(op.key.at))
    modifies t.Repr()
    ensures Tracks(t, before + [op]) && a == Expected(before, op)
    ensures forall n :: n in old(Members(t.nodes)) && !Touches(op, n) ==> n in Members(t.nodes)
    ensures forall o :: o in t.Repr() ==> o in old(t.Repr()) || fresh(o)
  {
    match op {
      case SetOp(_, _) => a := StepSet(t, before, op);
      case DelOp(_) => a := StepDel(t, before, op);
      case GetOp(_) => a := StepGet(t, before, op);
    }
  }

  ghost predicate AnswersRight<V>(before: seq<Op<V>>, ops: seq<Op<V>>, answers: seq<Answer<V>>) {
    && |answers| <= |ops|
    && forall i :: 0 <= i < |answers| ==> answers[i] == Expected(before + ops[..i], ops[i])
  }

  lemma AnswerRight<V>(before: seq<Op<V>>, ops: seq<Op<V>>, answers: seq<Answer<V>>, a: Answer<V>)
    requires AnswersRight(before, ops, answers) && |answers| < |ops|
    requires a == Expected(before + ops[..|answers|], ops[|answers|])
    ensures AnswersRight(before, ops, answers + [a])
  {
  }

  lemma NextDone<V>(before: seq<Op<V>>, ops: seq<Op<V>>, i: nat)
    requires i < |ops|
    ensures before + ops[..i] + [ops[i]] == before + ops[..i + 1]
  {
  }

  /** While the keys fit, the next set finds room. */
  lemma SetFindsRoom<V>(t: HashTable<V>, before: seq<Op<V>>, ops: seq<Op<V>>, i: nat)
    requires i < |ops| && ops[i].SetOp? && Tracks(t, before + ops[..i])
    requires Fits(before, ops, t.primes[|t.primes| - 1])
    ensures t.RoomFor(ops[i].key.at)
  {
    NextDone(before, ops, i);
    OneMore(before + ops[..i], ops[i]);
    CountKeys(t.nodes);
  }

  /** The next operation of a sequence. */
  method StepAt<V>(t: HashTable<V>, ghost before: seq<Op<V>>, ops: seq<Op<V>>, i: nat) returns (a: Answer<V>)
    requires i < |ops| && Tracks(t, before + ops[..i]) && Fits(before, ops, t.primes[|t.primes| - 1])
    modifies t.Repr()
    ensures Tracks(t, before + ops[..i + 1]) && a == Expected(before + ops[..i], ops[i])
    ensures forall n :: n in old(Members(t.nodes)) && !Touches(ops[i], n) ==> n in Members(t.nodes)
    ensures forall o :: o in t.Repr() ==> o in old(t.Repr()) || fresh(o)
  {
    if ops[i].SetOp? {
      SetFindsRoom(t, before, ops, i);
    }
    NextDone(before, ops, i);
    a := Step(t, before + ops[..i], ops[i]);
  }

  /** Any sequence of operations on a table that has seen others before. */
  method RunOn<V>(t: HashTable<V>, ghost before: seq<Op<V>>, ops: seq<Op<V>>) returns (answers: seq<Answer<V>>)
    requires Tracks(t, before) && Fits(before, ops, t.primes[|t.primes| - 1])
    modifies t.Repr()
    ensures Tracks(t, before + ops) && |answers| == |ops| && AnswersRight(before, ops, answers)
    ensures forall n :: n in old(Members(t.nodes)) && Untouched(ops, n) ==> n in Members(t.nodes)
    ensures forall o :: o in t.Repr() ==> o in old(t.Repr()) || fresh(o)
  {
    answers := [];
    assert before + ops[..0] == before;
    for i := 0 to |ops|
      invariant Tracks(t, before + ops[..i]) && |answers| == i && AnswersRight(before, ops, answers)
      invariant forall n :: n in old(Members(t.nodes)) && Untouched(ops, n) ==> n in Members(t.nodes)
      invariant forall o :: o in t.Repr() ==> o in old(t.Repr()) || fresh(o)
    {
      var a := StepAt(t, before, ops, i);
      AnswerRight(before, ops, answers, a);
      answers := answers + [a];
    }
    assert ops[..|ops|] == ops;
  }

  /** Every run from `hashtable_init` that never holds more keys than the last prime: each operation
      answers as the history says, and growing has moved at most three pairs per set. */
  method Run<V>(hashKey: string -> nat, freeKey: bool, freeValue: bool, ops: seq<Op<V>>)
      returns (answers: seq<Answer<V>>, t: HashTable<V>)
    requires Fits([], ops, PRIMES[|PRIMES| - 1])
    ensures fresh(t.Repr()) && Tracks(t, ops) && |answers| == |ops| && AnswersRight([], ops, answers)
    ensures t.ledger.freeKey == freeKey && t.ledger.freeValue == freeValue
    ensures t.ledger.moved <= 3 * SetCount(ops)
  {
    t := new HashTable<V>(hashKey, freeKey, freeValue);
    answers := RunOn(t, [], ops);
    assert [] + ops == ops;
    GrowthIsAmortised(t);
  }

  /** The pairs ever moved by growing are at most three times the calls of `Set`. */
  lemma GrowthIsAmortised<V>(t: HashTable<V>)
    requires t.Valid()
    ensures t.ledger.moved == Moved(t.primes, t.numBuckets) <= 3 * t.ledger.sets
    ensures t.size <= t.primes[t.numBuckets]
  {
    if t.numBuckets > 0 {
      MovedBound(t.primes, t.numBuckets);
    }
  }

  // ---------------------------------------------------------------- ownership

  /** Every set is handed blocks of its own: no address comes twice, be it for a key or a value. */
  predicate DistinctBlocks<V>(ops: seq<Op<V>>) {
    && (forall i, j :: 0 <= i < j < |ops| && ops[i].SetOp? && ops[j].SetOp? ==>
          ops[i].key.addr != ops[j].key.addr && ops[i].value.addr != ops[j].value.addr)
    && (forall i, j :: 0 <= i < |ops| && 0 <= j < |ops| && ops[i].SetOp? && ops[j].SetOp? ==>
          ops[i].key.addr != ops[j].value.addr)
  }

  predicate GivesKey<V>(op: Op<V>, block: nat) {
    op.SetOp? && op.key.addr == block
  }

  predicate GivesValue<V>(op: Op<V>, block: nat) {
    op.SetOp? && op.value.addr == block
  }

  /** Distinct blocks are handed over once each. */
  lemma {:induction false} DistinctKeysOnce<V>(ops: seq<Op<V>>, block: nat)
    requires DistinctBlocks(ops)
    ensures KeysOf(ops)[block] == if exists i :: 0 <= i < |ops| && GivesKey(ops[i], block) then 1 else 0
  {
    if ops != [] {
      var n := |ops| - 1;
      DistinctKeysOnce(ops[..n], block);
      if i :| 0 <= i < n && GivesKey(ops[i], block) {
        assert GivesKey(ops[..n][i], block);
      }
    }
  }

  lemma {:induction false} DistinctValuesOnce<V>(ops: seq<Op<V>>, block: nat)
    requires DistinctBlocks(ops)
    ensures ValuesOf(ops)[block] == if exists i :: 0 <= i < |ops| && GivesValue(ops[i], block) then 1 else 0
  {
    if ops != [] {
      var n := |ops| - 1;
      DistinctValuesOnce(ops[..n], block);
      if i :| 0 <= i < n && GivesValue(ops[i], block) {
        assert GivesValue(ops[..n][i], block);
      }
    }
  }

  /** So no address is handed over twice, as a key, as a value or as both. */
  lemma BlocksOnce<V>(ops: seq<Op<V>>, block: nat)
    requires DistinctBlocks(ops)
    ensures KeysOf(ops)[block] + ValuesOf(ops)[block] <= 1
  {
    DistinctKeysOnce(ops, block);
    DistinctValuesOnce(ops, block);
  }

  /** A key or a value that was handed over once is not freed while the list refers to it. */
  lemma LiveKeyNotFreed<V>(t: HashTable<V>, i: nat)
    requires t.Valid() && i < |t.nodes| && t.ledger.keysGiven[t.nodes[i].entry.key.addr] == 1
    ensures t.ledger.keysFreed[t.nodes[i].entry.key.addr] == 0
  {
    LiveAt(t.nodes, i);
  }

  lemma LiveValueNotFreed<V>(t: HashTable<V>, i: nat)
    requires t.Valid() && i < |t.nodes| && t.ledger.valuesGiven[t.nodes[i].entry.value.addr] == 1
    ensures t.ledger.valuesFreed[t.nodes[i].entry.value.addr] == 0
  {
    LiveAt(t.nodes, i);
  }

  /** After any run on distinct blocks nothing has been freed twice, and nothing that the list still
      refers to has been freed at all. */
  lemma NothingFreedEarly<V>(t: HashTable<V>, ops: seq<Op<V>>)
    requires Tracks(t, ops) && DistinctBlocks(ops)
    ensures forall block :: t.ledger.Frees(block) <= 1
    ensures forall i :: 0 <= i < |t.nodes| ==>
              t.ledger.Frees(t.nodes[i].entry.key.addr) == 0 && t.ledger.Frees(t.nodes[i].entry.value.addr) == 0
  {
    forall block ensures t.ledger.Frees(block) <= 1 {
      BlocksOnce(ops, block);
    }
    forall i | 0 <= i < |t.nodes|
      ensures t.ledger.Frees(t.nodes[i].entry.key.addr) == 0 && t.ledger.Frees(t.nodes[i].entry.value.addr) == 0
    {
      LiveAt(t.nodes, i);
      BlocksOnce(ops, t.nodes[i].entry.key.addr);
      BlocksOnce(ops, t.nodes[i].entry.value.addr);
    }
  }

  /** And in the end everything has been freed once. */
  ghost predicate AllFreedOnce<V>(t: HashTable<V>, ops: seq<Op<V>>)
    reads t.ledger
  {
    forall i :: 0 <= i < |ops| && ops[i].SetOp? ==>
      t.ledger.Frees(ops[i].key.addr) == 1 && t.ledger.Frees(ops[i].value.addr) == 1
  }

  lemma ClosedFreesAll<V>(t: HashTable<V>, ops: seq<Op<V>>)
    requires t.ledger.keysFreed == KeysOf(ops) && t.ledger.valuesFreed == ValuesOf(ops) && DistinctBlocks(ops)
    ensures AllFreedOnce(t, ops)
  {
    forall i | 0 <= i < |ops| && ops[i].SetOp?
      ensures t.ledger.Frees(ops[i].key.addr) == 1 && t.ledger.Frees(ops[i].value.addr) == 1
    {
      BlocksOnce(ops, ops[i].key.addr);
      BlocksOnce(ops, ops[i].value.addr);
      DistinctKeysOnce(ops, ops[i].key.addr);
      DistinctValuesOnce(ops, ops[i].value.addr);
      assert GivesKey(ops[i], ops[i].key.addr) && GivesValue(ops[i], ops[i].value.addr);
    }
  }

  /** From `hashtable_init` to `hashtable_close`: what is freed is what was handed over, and with
      distinct blocks each of them is freed exactly once. */
  method Lifetime<V>(hashKey: string -> nat, freeKey: bool, freeValue: bool, ops: seq<Op<V>>)
      returns (t: HashTable<V>)
    requires Fits([], ops, PRIMES[|PRIMES| - 1])
    ensures t.ledger.freeKey == freeKey && t.ledger.freeValue == freeValue
    ensures t.ledger.keysFreed == if freeKey then KeysOf(ops) else multiset{}
    ensures t.ledger.valuesFreed == if freeValue then ValuesOf(ops) else multiset{}
    ensures freeKey && freeValue && DistinctBlocks(ops) ==> AllFreedOnce(t, ops)
  {
    var answers;
    answers, t := Run(hashKey, freeKey, freeValue, ops);
    t.Close();
    if freeKey && freeValue && DistinctBlocks(ops) {
      ClosedFreesAll(t, ops);
    }
  }

  // ---------------------------------------------------------------- iteration

  /** `hashtable_iter` and `hashtable_iter_next` to the end. */
  method Visit<V>(t: HashTable<V>) returns (keys: seq<Str>)
    requires t.Valid()
    ensures |keys| == t.size && forall i :: 0 <= i < |keys| ==> keys[i] == t.nodes[i].entry.key
  {
    keys := [];
    var iter := t.Iter();
    while iter != null
      invariant |keys| <= |t.nodes| && forall i :: 0 <= i < |keys| ==> keys[i] == t.nodes[i].entry.key
      invariant iter == if |keys| < |t.nodes| then t.nodes[|keys|] else null
      decreases |t.nodes| - |keys|
    {
      keys := keys + [iter.entry.key];
      assert ([t.list] + t.nodes)[|keys|] == iter;
      iter := t.IterNext(iter, |keys|);
    }
  }

  /** Going through the list meets every key of the map, and each one once. */
  lemma VisitMeetsAll<V>(t: HashTable<V>, keys: seq<Str>)
    requires t.Valid() && |keys| == t.size && forall i :: 0 <= i < |keys| ==> keys[i] == t.nodes[i].entry.key
    ensures forall k :: k in t.Map() <==> exists i :: 0 <= i < |keys| && keys[i].at == k
    ensures forall i, j :: 0 <= i < j < |keys| ==> keys[i].at != keys[j].at
  {
    forall k ensures k in t.Map() <==> exists i :: 0 <= i < |keys| && keys[i].at == k {
      assert k in t.Map() <==> Holds(t.nodes, k);
      if i :| 0 <= i < |keys| && keys[i].at == k {
        assert HasKey(t.nodes[i], k);
      }
    }
    forall i, j | 0 <= i < j < |keys| ensures keys[i].at != keys[j].at {
      assert !HasKey(t.nodes[j], t.nodes[i].entry.key.at);
    }
  }

  lemma FirstGone<V>(t: HashTable<V>)
    requires t.Valid() && t.nodes != []
    ensures Kept(t.nodes, t.nodes[0].entry.key.at) == t.nodes[1..]
  {
    OnlyAt(t.nodes, 0);
    KeptRemoved(t.nodes, 0, t.nodes[0].entry.key.at);
    assert Removed(t.nodes, 0) == t.nodes[1..];
  }

  /** Advance, then delete the pair just left. */
  method DeleteBehind<V>(t: HashTable<V>, iter: Node<V>) returns (next: Node?<V>)
    requires t.Valid() && t.nodes != [] && iter == t.nodes[0]
    modifies t.Repr()
    ensures t.Valid() && t.nodes == old(t.nodes)[1..] && t.buckets == old(t.buckets)
    ensures next == if t.nodes != [] then t.nodes[0] else null
    ensures forall o :: o in t.Repr() ==> o in old(t.Repr())
  {
    assert ([t.list] + t.nodes)[1] == iter;
    next := t.IterNext(iter, 1);
    FirstGone(t);
    var r := t.Del(iter.entry.key.at);
  }

  /** In the middle of the loop below: the keys so far have been visited, and the rest is still there. */
  ghost predicate Draining<V>(t: HashTable<V>, was: seq<Node<V>>, visited: seq<Str>, iter: Node?<V>)
    reads t, t.Repr()
  {
    && t.Valid() && |visited| <= |was| && t.nodes == was[|visited|..]
    && iter == (if t.nodes != [] then t.nodes[0] else null)
    && (forall i :: 0 <= i < |was| ==> was[i].entry.Pair?)
    && forall i :: 0 <= i < |visited| ==> visited[i] == was[i].entry.key
  }

  /** One round: the key is noted, and the pair goes. */
  method DrainRound<V>(t: HashTable<V>, ghost was: seq<Node<V>>, visited: seq<Str>, iter: Node<V>)
      returns (longer: seq<Str>, next: Node?<V>)
    requires Draining(t, was, visited, iter)
    modifies t.Repr()
    ensures |longer| == |visited| + 1 && Draining(t, was, longer, next)
    ensures forall o :: o in t.Repr() ==> o in old(t.Repr())
  {
    TailNext(was, |visited|);
    longer := visited + [iter.entry.key];
    next := DeleteBehind(t, iter);
  }

  lemma TailNext<V>(was: seq<Node<V>>, k: nat)
    requires k < |was|
    ensures was[k..][1..] == was[k + 1..] && was[k..][0] == was[k]
  {
  }

  /** The iterator stays good through an iterate-and-delete loop: every key is met once, and the
      table ends empty. */
  method Drain<V>(t: HashTable<V>) returns (visited: seq<Str>)
    requires t.Valid()
    modifies t.Repr()
    ensures t.Valid() && t.nodes == [] && t.size == 0
    ensures |visited| == old(t.size) && forall i :: 0 <= i < |visited| ==> visited[i] == old(t.nodes)[i].entry.key
  {
    ghost var was := t.nodes;
    visited := [];
    var iter := t.Iter();
    while iter != null
      invariant Draining(t, was, visited, iter)
      invariant forall o :: o in t.Repr() ==> o in old(t.Repr())
      decreases |was| - |visited|
    {
      visited, iter := DrainRound(t, was, visited, iter);
    }
  }

  /** A held iterator stays linked through any operations on other keys, growth included. Its entry
      is constant, so key and value are what they were. */
  method HoldIterator<V>(t: HashTable<V>, iter: Node<V>, ghost before: seq<Op<V>>, ops: seq<Op<V>>)
      returns (answers: seq<Answer<V>>)
    requires Tracks(t, before) && iter in Members(t.nodes)
    requires Fits(before, ops, t.primes[|t.primes| - 1]) && Untouched(ops, iter)
    modifies t.Repr()
    ensures Tracks(t, before + ops) && iter in Members(t.nodes)
    ensures |answers| == |ops| && AnswersRight(before, ops, answers)
  {
    answers := RunOn(t, before, ops);
  }

  /** From any iterator, `hashtable_iter_next` reaches NULL in at most `size` steps. */
  method WalkToEnd<V>(t: HashTable<V>, start: Node<V>) returns (steps: nat)
    requires t.Valid() && start in Members(t.nodes)
    ensures 1 <= steps <= t.size
  {
    ghost var p: nat :| p < |t.nodes| && t.nodes[p] == start;
    steps := 0;
    var iter: Node?<V> := start;
    ghost var q := p;
    while iter != null
      invariant p <= q <= |t.nodes| && steps == q - p
      invariant iter == if q < |t.nodes| then t.nodes[q] else null
      decreases |t.nodes| - q
    {
      assert ([t.list] + t.nodes)[q + 1] == iter;
      iter := t.IterNext(iter, q + 1);
      q, steps := q + 1, steps + 1;
    }
  }
}
