/** The Bloom filter over the known keys. Any pair of hash functions will do. */
module Bloom {
  import opened Types

  const WORD := 0x1_0000_0000_0000_0000

  /** The two 64-bit hashes of a key. */
  type Hasher = Key -> (nat, nat)

  /** Probe i, in wrapping 64-bit arithmetic, reduced to a bit position. */
  function Probe(h: Hasher, key: Key, i: nat, size: nat): (b: nat)
    requires size > 0
    ensures b < size
  {
    ((h(key).0 + i * h(key).1) % WORD) % size
  }

  /** Some probe of the key lands on this bit. */
  predicate Probes(h: Hasher, key: Key, hashes: nat, size: nat, b: nat)
    requires size > 0
  {
    exists i :: 0 <= i < hashes && Probe(h, key, i, size) == b
  }

  // ---- Bits of a word ----

  function Narrow(bit: nat): bv6
    requires bit < 64
  {
    bit as bv6
  }

  function Shift(b: bv6): bv64 {
    (1 as bv64) << b
  }

  function Mask(bit: nat): bv64
    requires bit < 64
  {
    Shift(Narrow(bit))
  }

  function And(w: bv64, m: bv64): bv64 {
    w & m
  }

  function Or(w: bv64, m: bv64): bv64 {
    w | m
  }

  predicate Has(w: bv64, bit: nat)
    requires bit < 64
  {
    And(w, Mask(bit)) != 0
  }

  function With(w: bv64, bit: nat): bv64
    requires bit < 64
  {
    Or(w, Mask(bit))
  }

  lemma ShiftsApart(a: bv6, b: bv6)
    ensures Shift(a) != 0 && (a != b ==> And(Shift(a), Shift(b)) == 0)
  {
  }

  lemma NarrowsAndBack(a: nat)
    requires a < 64
    ensures Narrow(a) as nat == a
  {
  }

  lemma NarrowsApart(a: nat, b: nat)
    requires a < 64 && b < 64 && Narrow(a) == Narrow(b)
    ensures a == b
  {
    hide Narrow;
    NarrowsAndBack(a);
    NarrowsAndBack(b);
  }

  lemma MasksApart(a: nat, b: nat)
    requires a < 64 && b < 64
    ensures Mask(a) != 0 && (a != b ==> And(Mask(a), Mask(b)) == 0)
  {
    hide Narrow, Shift, And;
    if Narrow(a) == Narrow(b) { NarrowsApart(a, b); }
    ShiftsApart(Narrow(a), Narrow(b));
  }

  lemma OrAnd(w: bv64, m: bv64, t: bv64)
    ensures And(m, t) == 0 ==> And(Or(w, m), t) == And(w, t)
    ensures m != 0 ==> And(Or(w, m), m) != 0
  {
  }

  /** Setting one bit of a word sets that bit and no other. */
  lemma SetInWord(w: bv64, b: nat, c: nat)
    requires b < 64 && c < 64
    ensures Has(With(w, b), c) <==> b == c || Has(w, c)
  {
    hide Mask, And, Or;
    MasksApart(b, c);
    OrAnd(w, Mask(b), Mask(c));
  }

  lemma NothingSet(bit: nat)
    requires bit < 64
    ensures !Has(0, bit)
  {
  }

  class Filter {
    const bits: array<bv64>
    const size: nat
    const hashes: nat
    const h: Hasher

    ghost predicate Valid() {
      size > 0 && hashes > 0 && bits.Length == (size - 1) / 64 + 1
    }

    predicate BitSet(b: nat)
      requires Valid() && b < size
      reads bits
    {
      Has(bits[b / 64], b % 64)
    }

    /** Every probe of the key finds its bit set. */
    ghost predicate MayContain(key: Key)
      requires Valid()
      reads bits
    {
      forall i :: 0 <= i < hashes ==> BitSet(Probe(h, key, i, size))
    }

    constructor (size: nat, hashes: nat, h: Hasher)
      requires size > 0 && hashes > 0
      ensures Valid() && fresh(bits) && this.size == size && this.hashes == hashes && this.h == h
      ensures forall c :: 0 <= c < size ==> !BitSet(c)
    {
      this.size, this.hashes, this.h := size, hashes, h;
      bits := new bv64[(size - 1) / 64 + 1](_ => 0);
      new;
      ClearWords();
    }

    lemma ClearWords()
      requires Valid() && forall w :: 0 <= w < bits.Length ==> bits[w] == 0
      ensures forall c :: 0 <= c < size ==> !BitSet(c)
    {
      forall c | 0 <= c < size ensures !BitSet(c) {
        NothingSet(c % 64);
      }
    }

    /** Exactly one bit changes. */
    method SetBit(b: nat)
      requires Valid() && b < size
      modifies bits
      ensures forall c :: 0 <= c < size ==> (BitSet(c) <==> c == b || old(BitSet(c)))
    {
      hide Has, With;
      ghost var word := bits[b / 64];
      forall c | 0 <= c < size && c / 64 == b / 64
        ensures Has(With(word, b % 64), c % 64) <==> c == b || Has(word, c % 64)
      {
        SetInWord(word, b % 64, c % 64);
      }
      bits[b / 64] := With(bits[b / 64], b % 64);
    }

    /** Add sets the bits of the key's probes and no others. */
    method Add(key: Key)
      requires Valid()
      modifies bits
      ensures forall c :: 0 <= c < size ==> (BitSet(c) <==> old(BitSet(c)) || Probes(h, key, hashes, size, c))
    {
      hide BitSet;
      for i := 0 to hashes
        invariant forall c :: 0 <= c < size ==> (BitSet(c) <==> old(BitSet(c)) || Probes(h, key, i, size, c))
      {
        SetBit(Probe(h, key, i, size));
        forall c | 0 <= c < size
          ensures Probes(h, key, i + 1, size, c) <==> Probes(h, key, i, size, c) || c == Probe(h, key, i, size)
        {
          OneMoreProbe(h, key, i, size, c);
        }
      }
    }

    method Contains(key: Key) returns (maybe: bool)
      requires Valid()
      ensures maybe <==> MayContain(key)
    {
      hide Has;
      for i := 0 to hashes
        invariant forall j :: 0 <= j < i ==> BitSet(Probe(h, key, j, size))
      {
        var b := Probe(h, key, i, size);
        if !Has(bits[b / 64], b % 64) {
          assert !BitSet(b);
          return false;
        }
      }
      maybe := true;
    }
  }

  lemma OneMoreProbe(h: Hasher, key: Key, i: nat, size: nat, c: nat)
    requires size > 0
    ensures Probes(h, key, i + 1, size, c) <==> Probes(h, key, i, size, c) || c == Probe(h, key, i, size)
  {
  }

  /** Some listed key has a probe on this bit. */
  predicate Covered(h: Hasher, keys: seq<Key>, hashes: nat, size: nat, b: nat)
    requires size > 0
  {
    exists n :: 0 <= n < |keys| && Probes(h, keys[n], hashes, size, b)
  }

  lemma OneMoreKey(h: Hasher, keys: seq<Key>, n: nat, hashes: nat, size: nat, b: nat)
    requires size > 0 && n < |keys|
    ensures Covered(h, keys[..n + 1], hashes, size, b)
       <==> Covered(h, keys[..n], hashes, size, b) || Probes(h, keys[n], hashes, size, b)
  {
    var longer, shorter := keys[..n + 1], keys[..n];
    assert forall m :: 0 <= m < n ==> longer[m] == shorter[m];
    if Probes(h, keys[n], hashes, size, b) { assert longer[n] == keys[n]; }
  }

  /** The filter for a key list admits exactly the keys all of whose probes some listed key shares. */
  method ForKeys(keys: seq<Key>, size: nat, hashes: nat, h: Hasher) returns (f: Filter)
    requires size > 0 && hashes > 0
    ensures f.Valid() && fresh(f) && fresh(f.bits)
    ensures forall k: Key :: f.MayContain(k) <==> Admitted(h, keys, hashes, size, k)
    ensures forall k :: k in keys ==> f.MayContain(k)
  {
    f := new Filter(size, hashes, h);
    for n := 0 to |keys|
      invariant f.Valid() && fresh(f.bits)
      invariant forall c :: 0 <= c < size ==> (f.BitSet(c) <==> Covered(h, keys[..n], hashes, size, c))
    {
      f.Add(keys[n]);
      forall c | 0 <= c < size
        ensures Covered(h, keys[..n + 1], hashes, size, c)
           <==> Covered(h, keys[..n], hashes, size, c) || Probes(h, keys[n], hashes, size, c)
      {
        OneMoreKey(h, keys, n, hashes, size, c);
      }
    }
    assert keys[..|keys|] == keys;
    forall k | k in keys ensures Admitted(h, keys, hashes, size, k) {
      NoFalseNegatives(h, keys, hashes, size, k);
    }
  }

  predicate Admitted(h: Hasher, keys: seq<Key>, hashes: nat, size: nat, k: Key)
    requires size > 0
  {
    forall i :: 0 <= i < hashes ==> Covered(h, keys, hashes, size, Probe(h, k, i, size))
  }

  lemma NoFalseNegatives(h: Hasher, keys: seq<Key>, hashes: nat, size: nat, k: Key)
    requires size > 0 && k in keys
    ensures Admitted(h, keys, hashes, size, k)
  {
    var n :| 0 <= n < |keys| && keys[n] == k;
    forall i | 0 <= i < hashes ensures Covered(h, keys, hashes, size, Probe(h, k, i, size)) {
      assert Probes(h, keys[n], hashes, size, Probe(h, k, i, size));
    }
  }
}
