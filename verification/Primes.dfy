/** The bucket counts of src/hashtable.c and what they say about the cost of growing. */
module Primes {

  const PRIMES: seq<nat> := [
    5, 13, 23, 53, 97, 193, 389, 769, 1543, 3079, 6151, 12289, 24593,
    49157, 98317, 196613, 393241, 786433, 1572869, 3145739, 6291469,
    12582917, 25165843, 50331653, 100663319, 201326611, 402653189,
    805306457, 1610612741]

  /** Each count is positive and at least half as large again as the one before. */
  ghost predicate Growing(sizes: seq<nat>) {
    && sizes != [] && (forall i :: 0 <= i < |sizes| ==> 0 < sizes[i])
    && forall i :: 1 <= i < |sizes| ==> 3 * sizes[i - 1] <= 2 * sizes[i]
  }

  lemma PrimesGrow()
    ensures Growing(PRIMES) && |PRIMES| == 29 && PRIMES[0] == 5 && PRIMES[28] == 1610612741
  {
  }

  /** No count is larger than the last one. */
  lemma {:induction false} LastIsLargest(sizes: seq<nat>, i: nat)
    requires Growing(sizes) && i < |sizes|
    ensures sizes[i] <= sizes[|sizes| - 1]
    decreases |sizes| - i
  {
    if i + 1 < |sizes| {
      LastIsLargest(sizes, i + 1);
      assert 3 * sizes[i + 1 - 1] <= 2 * sizes[i + 1];
    }
  }

  /** The pairs moved by growing to index k: a growth from index j moves as many pairs as there
      were buckets. */
  function Moved(sizes: seq<nat>, k: nat): nat
    requires k <= |sizes|
  {
    if k == 0 then 0 else Moved(sizes, k - 1) + sizes[k - 1]
  }

  lemma {:induction false} MovedBound(sizes: seq<nat>, k: nat)
    requires Growing(sizes) && 0 < k <= |sizes|
    ensures Moved(sizes, k) <= 3 * sizes[k - 1]
  {
    if k > 1 {
      MovedBound(sizes, k - 1);
    }
  }

  /** Each count is close to twice the one before. */
  lemma NearlyDoubled()
    ensures forall i :: 1 <= i < |PRIMES| ==>
              2 * PRIMES[i - 1] <= PRIMES[i] + 173 && PRIMES[i] <= 2 * PRIMES[i - 1] + 79
  {
  }

  lemma FirstGrowths()
    ensures Moved(PRIMES, 14) == 98354
  {
    assert Moved(PRIMES, 2) == 18;
    assert Moved(PRIMES, 4) == 94;
    assert Moved(PRIMES, 6) == 384;
    assert Moved(PRIMES, 8) == 1542;
    assert Moved(PRIMES, 10) == 6164;
    assert Moved(PRIMES, 12) == 24604;
  }

  /** A table that has grown through all counts has moved this many pairs. */
  lemma AllGrowths()
    ensures Moved(PRIMES, 28) == 1610613024
  {
    FirstGrowths();
    assert Moved(PRIMES, 16) == 393284;
    assert Moved(PRIMES, 18) == 1572958;
    assert Moved(PRIMES, 20) == 6291566;
    assert Moved(PRIMES, 22) == 25165952;
    assert Moved(PRIMES, 24) == 100663448;
    assert Moved(PRIMES, 26) == 402653378;
  }
}
