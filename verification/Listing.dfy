/** The answer of `list commands` in src/app.c: the keys of a table, one per line, written into a
    buffer that grows with every key. */
module Listing {
  import opened ListRing
  import opened Pairs
  import opened HashTables

  function Join(keys: seq<string>): string {
    if keys == [] then
      []
    else if |keys| == 1 then
      keys[0]
    else
      Join(keys[..|keys| - 1]) + "\n" + keys[|keys| - 1]
  }

  /** Every key with a line break after it. */
  function Lines(keys: seq<string>): string {
    if keys == [] then [] else Lines(keys[..|keys| - 1]) + keys[|keys| - 1] + "\n"
  }

  /** The lines of a text. */
  function Split(s: string): (r: seq<string>)
    ensures r != []
  {
    if s == [] then
      [[]]
    else if s[0] == '\n' then
      [[]] + Split(s[1..])
    else
      var r := Split(s[1..]);
      [[s[0]] + r[0]] + r[1..]
  }

  function KeyText<V>(node: Node<V>): string {
    if node.entry.Pair? then node.entry.key.at else []
  }

  function Texts<V>(nodes: seq<Node<V>>): seq<string> {
    seq(|nodes|, i requires 0 <= i < |nodes| => KeyText(nodes[i]))
  }

  lemma {:induction false} LinesAreJoined(keys: seq<string>)
    requires keys != []
    ensures Lines(keys) == Join(keys) + "\n"
  {
    if |keys| > 1 {
      LinesAreJoined(keys[..|keys| - 1]);
    }
  }

  lemma {:induction false} PiecesHaveNoBreak(s: string)
    ensures forall i :: 0 <= i < |Split(s)| ==> '\n' !in Split(s)[i]
  {
    if s != [] {
      PiecesHaveNoBreak(s[1..]);
    }
  }

  lemma {:induction false} SplitLine(s: string)
    requires '\n' !in s
    ensures Split(s) == [s]
  {
    if s != [] {
      SplitLine(s[1..]);
      assert [s[0]] + s[1..] == s;
    }
  }

  lemma {:induction false} SplitAtBreak(a: string, b: string)
    requires '\n' !in b
    ensures Split(a + "\n" + b) == Split(a) + [b]
  {
    if a == [] {
      assert a + "\n" + b == "\n" + b && ("\n" + b)[1..] == b;
      SplitLine(b);
    } else {
      SplitAtBreak(a[1..], b);
      assert (a + "\n" + b)[1..] == a[1..] + "\n" + b;
    }
  }

  lemma {:induction false} SplitJoined(keys: seq<string>)
    requires keys != [] && forall i :: 0 <= i < |keys| ==> '\n' !in keys[i]
    ensures Split(Join(keys)) == keys
  {
    var n := |keys| - 1;
    if n == 0 {
      SplitLine(keys[0]);
    } else {
      SplitJoined(keys[..n]);
      SplitAtBreak(Join(keys[..n]), keys[n]);
      assert keys == keys[..n] + [keys[n]];
    }
  }

  /** The listing can be read back exactly when no key contains a line break. */
  lemma {:induction false} ListingReadsBack(keys: seq<string>)
    requires keys != []
    ensures Split(Join(keys)) == keys <==> forall i :: 0 <= i < |keys| ==> '\n' !in keys[i]
  {
    if forall i :: 0 <= i < |keys| ==> '\n' !in keys[i] {
      SplitJoined(keys);
    }
    PiecesHaveNoBreak(Join(keys));
  }

  /** `realloc`: a block of the new size that starts like the old one; the rest is arbitrary. */
  method Realloc(block: array?<char>, size: nat) returns (r: array<char>)
    ensures fresh(r) && r.Length == size
    ensures block != null ==> forall i :: 0 <= i < size && i < block.Length ==> r[i] == block[i]
  {
    r := new char[size];
    if block != null {
      var n := if size < block.Length then size else block.Length;
      for i := 0 to n
        invariant forall j :: 0 <= j < i ==> r[j] == block[j]
      {
        r[i] := block[i];
      }
    }
  }

  /** `memcpy` into a block at an offset. */
  method Memcpy(block: array<char>, at: nat, src: string, n: nat)
    requires at + n <= block.Length && n <= |src|
    modifies block
    ensures block[..] == old(block[..at]) + src[..n] + old(block[at + n..])
  {
    ghost var was := block[..];
    for i := 0 to n
      invariant block[..at] == was[..at] && block[at + n..] == was[at + n..]
      invariant block[at..at + i] == src[..i]
    {
      block[at + i] := src[i];
    }
    assert block[..] == block[..at] + block[at..at + n] + block[at + n..];
  }

  /** The buffer, none at first, holds exactly this text. */
  ghost predicate Buffered(ret: array?<char>, fullSize: nat, text: string)
    reads if ret == null then {} else {ret}
  {
    fullSize == |text| && if ret == null then text == [] else ret[..] == text
  }

  lemma LinesNext(keys: seq<string>, q: nat)
    requires q < |keys|
    ensures Lines(keys[..q + 1]) == Lines(keys[..q]) + keys[q] + "\n"
  {
    assert keys[..q + 1][..q] == keys[..q];
  }

  /** One round of the loop: room for the key and a line break, then the copy. */
  method AppendLine(ret: array?<char>, fullSize: nat, val: string) returns (grown: array<char>)
    requires if ret == null then fullSize == 0 else ret.Length == fullSize
    ensures fresh(grown) && grown[..] == (if ret == null then [] else ret[..]) + val + "\n"
  {
    var valSize := |val| + 1;
    var currentPos := fullSize;
    grown := Realloc(ret, fullSize + valSize);
    ghost var start := grown[..currentPos];
    assert start == if ret == null then [] else ret[..];
    Memcpy(grown, currentPos, val + "\0", valSize);
    assert grown[..] == start + (val + "\0");
    grown[currentPos + valSize - 1] := '\n';
    assert grown[..] == start + (val + "\n");
  }

  lemma AllJoined(keys: seq<string>, q: nat)
    requires q == |keys| > 0
    ensures Lines(keys[..q]) == Join(keys) + "\n"
  {
    assert keys[..q] == keys;
    LinesAreJoined(keys);
  }

  /** One round: the key the iterator stands at, and the next iterator. The table stands by. */
  method AppendKey<V>(t: HashTable<V>, ret: array?<char>, fullSize: nat, iter: Node<V>, ghost q: nat)
      returns (grown: array<char>, next: Node?<V>)
    requires t.Valid() && q < |t.nodes| && iter == t.nodes[q]
    requires Buffered(ret, fullSize, Lines(Texts(t.nodes)[..q]))
    ensures t.Valid() && fresh(grown) && grown.Length > 0
    ensures Buffered(grown, grown.Length, Lines(Texts(t.nodes)[..q + 1]))
    ensures next == if q + 1 < |t.nodes| then t.nodes[q + 1] else null
  {
    assert ([t.list] + t.nodes)[q + 1] == iter;
    next := t.IterNext(iter, q + 1);
    LinesNext(Texts(t.nodes), q);
    assert KeyText(iter) == Texts(t.nodes)[q];
    grown := AppendLine(ret, fullSize, iter.entry.key.at);
  }

  /** The buffer holds the keys in list order, a line break between them and a NUL at the end;
      no write leaves the block it was given. */
  method ListKeys<V>(t: HashTable<V>) returns (ret: array?<char>)
    requires t.Valid()
    ensures ret == null <==> t.nodes == []
    ensures ret != null ==> fresh(ret) && ret[..] == Join(Texts(t.nodes)) + "\0"
  {
    ret := null;
    var iter := t.Iter();
    if iter == null {
      return;
    }
    var fullSize: nat := 0;
    ghost var q := 0;
    while iter != null
      invariant t.Valid() && q <= |t.nodes| && iter == if q < |t.nodes| then t.nodes[q] else null
      invariant (ret == null <==> q == 0) && (ret != null ==> fresh(ret))
      invariant Buffered(ret, fullSize, Lines(Texts(t.nodes)[..q]))
      decreases |t.nodes| - q
    {
      ret, iter := AppendKey(t, ret, fullSize, iter, q);
      fullSize := ret.Length;
      q := q + 1;
    }
    AllJoined(Texts(t.nodes), q);
    ret[fullSize - 1] := '\0';
  }

  /** Reading the listing of a table back gives each of its keys, and gives it once. */
  lemma ListingIsTheKeys<V>(t: HashTable<V>)
    requires t.Valid() && t.nodes != []
    requires forall k :: k in t.Map() ==> '\n' !in k
    ensures var lines := Split(Join(Texts(t.nodes)));
            && |lines| == t.size
            && (forall k :: k in t.Map() <==> k in lines)
            && forall i, j :: 0 <= i < j < |lines| ==> lines[i] != lines[j]
  {
    var keys := Texts(t.nodes);
    forall i | 0 <= i < |keys| ensures keys[i] in t.Map() {
      ContentsAt(t.nodes, i);
    }
    SplitJoined(keys);
    forall k | k in t.Map() ensures k in keys {
      assert Holds(t.nodes, k);
      var i :| 0 <= i < |t.nodes| && HasKey(t.nodes[i], k);
      assert keys[i] == k;
    }
    forall i, j | 0 <= i < j < |keys| ensures keys[i] != keys[j] {
      assert !HasKey(t.nodes[j], t.nodes[i].entry.key.at);
    }
  }
}
