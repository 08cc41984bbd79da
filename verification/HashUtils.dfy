/** `hash_string` of src/hashtable-utils.c: the shift-and-add loop modulo 2^32. */
module HashUtils {

  const WORD := 0x1_0000_0000

  /** `(unsigned int)*str`: a byte from 128 up is sign-extended where `char` is signed. */
  function CharWord(signed: bool, c: char): nat {
    var byte := c as int % 256;
    if signed && byte >= 128 then byte + 0xFFFF_FF00 else byte
  }

  /** The text of a C string: bytes other than NUL. */
  predicate IsCString(s: string) {
    forall i :: 0 <= i < |s| ==> 0 < s[i] as int < 256
  }

  function Pow33(n: nat): nat {
    if n == 0 then 1 else 33 * Pow33(n - 1)
  }

  /** The sum of c_i * 33^(n - 1 - i). */
  function Sigma(signed: bool, s: string): nat {
    if s == [] then 0 else CharWord(signed, s[0]) * Pow33(|s| - 1) + Sigma(signed, s[1..])
  }

  /** The hash before it is taken modulo 2^32. */
  function Raw(signed: bool, s: string): nat {
    5381 * Pow33(|s|) + Sigma(signed, s)
  }

  function Hash(signed: bool, s: string): nat {
    Raw(signed, s) % WORD
  }

  /** A character is added as the byte it is, or with the sign of the byte as an unsigned word. */
  lemma CharWordMeans(c: char)
    ensures var byte := c as int % 256;
            && CharWord(false, c) == byte
            && 0 <= CharWord(true, c) < 4294967296
            && CharWord(true, c) == if byte <= 127 then byte else 4294967296 + (byte - 256)
  {
  }

  lemma Swap(x: int, p: int)
    ensures x * (33 * p) == 33 * (x * p)
  {
  }

  lemma Horner(x: nat, c: nat)
    ensures (33 * (x % WORD) + c) % WORD == (33 * x + c) % WORD
  {
    assert x == (x / WORD) * WORD + x % WORD;
  }

  /** The sum, too, can be taken one character further. */
  lemma {:induction false} SigmaNext(signed: bool, s: string, c: char)
    ensures Sigma(signed, s + [c]) == 33 * Sigma(signed, s) + CharWord(signed, c)
  {
    if s == [] {
      assert ([] + [c])[1..] == [] && Pow33(0) == 1;
    } else {
      SigmaNext(signed, s[1..], c);
      assert (s + [c])[1..] == s[1..] + [c];
      Swap(CharWord(signed, s[0]), Pow33(|s| - 1));
    }
  }

  lemma HashNext(signed: bool, s: string, c: char)
    ensures Hash(signed, s + [c]) == (33 * Hash(signed, s) + CharWord(signed, c)) % WORD
  {
    SigmaNext(signed, s, c);
    Horner(Raw(signed, s), CharWord(signed, c));
  }

  /** One more character on a hash that goes on from h. */
  lemma HornerFrom(h: nat, p: nat, s: nat, c: nat)
    ensures (33 * ((h * p + s) % WORD) + c) % WORD == (h * (33 * p) + (33 * s + c)) % WORD
  {
    Swap(h, p);
    Horner(h * p + s, c);
  }

  /** The same on the values alone. */
  lemma ConcatStep(x: nat, y: nat, h: nat, p: nat, s: nat, c: nat, q: nat, t: nat)
    requires x == (h * p + s) % WORD && y == (33 * x + c) % WORD && q == 33 * p && t == 33 * s + c
    ensures y == (h * q + t) % WORD
  {
    HornerFrom(h, p, s, c);
  }

  /** The recurrence that fixes the hash: it starts at 5381, and a character c makes h to 33 * h + c,
      in 32 bits. */
  lemma HashRecurrence(signed: bool, s: string, c: char)
    ensures Hash(signed, []) == 5381
    ensures Hash(signed, s + [c]) == (33 * Hash(signed, s) + CharWord(signed, c)) % 4294967296
  {
    assert Pow33(0) == 1;
    HashNext(signed, s, c);
  }

  /** The loop going on from a hash h. */
  function Continued(signed: bool, h: nat, s: string): nat {
    if s == [] then h else (33 * Continued(signed, h, s[..|s| - 1]) + CharWord(signed, s[|s| - 1])) % WORD
  }

  lemma NothingContinued(h: nat)
    requires h < WORD
    ensures h == (h * Pow33(0)) % WORD
  {
    assert Pow33(0) == 1;
  }

  lemma {:induction false} ContinuedIs(signed: bool, h: nat, s: string)
    requires h < WORD
    ensures Continued(signed, h, s) == (h * Pow33(|s|) + Sigma(signed, s)) % WORD
  {
    if s == [] {
      NothingContinued(h);
    } else {
      var head, c := s[..|s| - 1], s[|s| - 1];
      ContinuedIs(signed, h, head);
      SigmaNext(signed, head, c);
      assert head + [c] == s;
      ConcatStep(Continued(signed, h, head), Continued(signed, h, s), h, Pow33(|head|), Sigma(signed, head),
                 CharWord(signed, c), Pow33(|s|), Sigma(signed, s));
    }
  }

  lemma {:induction false} HashContinues(signed: bool, a: string, b: string)
    ensures Hash(signed, a + b) == Continued(signed, Hash(signed, a), b)
  {
    if b == [] {
      assert a + b == a;
    } else {
      var head, c := b[..|b| - 1], b[|b| - 1];
      HashContinues(signed, a, head);
      HashNext(signed, a + head, c);
      assert a + b == a + head + [c];
    }
  }

  /** Hashing goes on from the hash of the first part. */
  lemma HashConcat(signed: bool, a: string, b: string)
    ensures Hash(signed, a + b) == (Hash(signed, a) * Pow33(|b|) + Sigma(signed, b)) % WORD
  {
    HashContinues(signed, a, b);
    ContinuedIs(signed, Hash(signed, a), b);
  }

  lemma ShiftAndAdd(hash: nat, c: nat)
    requires hash < WORD
    ensures (((hash * 32) % WORD + hash) % WORD + c) % WORD == (33 * hash + c) % WORD
  {
  }

  /** The loop reads up to the NUL; every step wraps around at 2^32. */
  method HashString(signed: bool, key: string) returns (hash: nat)
    requires IsCString(key)
    ensures hash == Hash(signed, key) && hash < 4294967296
    ensures key == [] ==> hash == 5381
  {
    hash := 5381;
    var str := 0;
    assert Pow33(0) == 1 && Sigma(signed, key[..0]) == 0;
    var c := if str < |key| then CharWord(signed, key[str]) else 0;
    while c != 0
      invariant str <= |key| && hash < WORD && hash == Hash(signed, key[..str])
      invariant c == if str < |key| then CharWord(signed, key[str]) else 0
      decreases |key| - str
    {
      ShiftAndAdd(hash, c);
      HashNext(signed, key[..str], key[str]);
      assert key[..str + 1] == key[..str] + [key[str]];
      hash := (((hash * 32) % WORD + hash) % WORD + c) % WORD;
      str := str + 1;
      c := if str < |key| then CharWord(signed, key[str]) else 0;
    }
    assert key[..str] == key;
  }
}
