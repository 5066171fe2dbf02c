/**
 * What both Bloom filters compute: the positions an item hashes to, the bits an add sets,
 * and the conversions between the plain and the word-packed representation.
 */
module BloomSpec {
  import opened Prelude
  import opened Bits

  /** `hash_at_index`: an arbitrary function of the item and a hash key. */
  type Hash<!T> = (T, u64) -> u64

  /** The plain filter: hash keys, bit vector and cached population count. */
  datatype Plain = Plain(keys: seq<u64>, bits: seq<bool>, numBitsSet: nat)

  /** The shared filter: the same bits packed into 64-bit words. */
  datatype Packed = Packed(numBits: nat, keys: seq<u64>, words: seq<nat>)

  /** Hashing divides by the number of bits, so a filter that has keys needs a bit. */
  predicate Sane(keys: seq<u64>, numBits: nat)
  {
    keys != [] ==> numBits > 0
  }

  function Position<T>(hash: Hash<T>, keys: seq<u64>, numBits: nat, x: T, k: nat): (p: nat)
    requires Sane(keys, numBits) && k < |keys|
    ensures p < numBits
  {
    hash(x, keys[k]) % numBits
  }

  function Multiple(d: nat, q: nat): nat
  {
    d * q
  }

  /** p is what remains of n when d is taken away as often as it goes. */
  ghost predicate IsRest(n: nat, d: nat, p: nat)
  {
    p < d && exists q: nat :: n == Multiple(d, q) + p
  }

  /** The position for the k-th key is what remains of the hash under that very key. */
  lemma PositionIsRest<T>(hash: Hash<T>, keys: seq<u64>, numBits: nat, x: T, k: nat)
    requires Sane(keys, numBits) && k < |keys|
    ensures IsRest(hash(x, keys[k]), numBits, Position(hash, keys, numBits, x, k))
  {
    var n: nat := hash(x, keys[k]);
    assert n == Multiple(numBits, n / numBits) + n % numBits;
  }

  lemma {:induction false} NextMultiple(d: nat, q: nat, s: nat)
    requires q < s
    ensures Multiple(d, q) + d <= Multiple(d, s)
  {
    assert Multiple(d, s) == Multiple(d, s - 1) + d;
    if q < s - 1 { NextMultiple(d, q, s - 1); }
  }

  /** Nothing else remains. */
  lemma RestUnique(n: nat, d: nat, p: nat, r: nat)
    requires IsRest(n, d, p) && IsRest(n, d, r)
    ensures p == r
  {
    var q: nat :| n == Multiple(d, q) + p;
    var s: nat :| n == Multiple(d, s) + r;
    if q < s { NextMultiple(d, q, s); }
    if s < q { NextMultiple(d, s, q); }
  }

  ghost predicate IsPosition<T>(hash: Hash<T>, keys: seq<u64>, numBits: nat, x: T, p: nat)
    requires Sane(keys, numBits)
  {
    exists k :: 0 <= k < |keys| && Position(hash, keys, numBits, x, k) == p
  }

  /** Some item of the collection hashes to p. */
  ghost predicate Covered<T>(hash: Hash<T>, keys: seq<u64>, numBits: nat, items: seq<T>, p: nat)
    requires Sane(keys, numBits)
  {
    exists j :: 0 <= j < |items| && IsPosition(hash, keys, numBits, items[j], p)
  }

  /** The bits with every position of every item set, and no other change. */
  ghost function WithItems<T>(hash: Hash<T>, keys: seq<u64>, bits: seq<bool>, items: seq<T>): (r: seq<bool>)
    requires Sane(keys, |bits|)
    ensures |r| == |bits|
  {
    seq(|bits|, p requires 0 <= p < |bits| => bits[p] || Covered(hash, keys, |bits|, items, p))
  }

  /** The bits of the first n keys of x are set; the vector may be longer than the filter. */
  ghost predicate HoldsUpTo<T>(hash: Hash<T>, keys: seq<u64>, numBits: nat, bits: seq<bool>, x: T, n: nat)
    requires Sane(keys, numBits) && numBits <= |bits| && n <= |keys|
  {
    forall k :: 0 <= k < n ==> bits[Position(hash, keys, numBits, x, k)]
  }

  /** Every bit the item hashes to is set: the answer `contains` is to give. */
  ghost predicate Holds<T>(hash: Hash<T>, keys: seq<u64>, bits: seq<bool>, x: T)
    requires Sane(keys, |bits|)
  {
    HoldsUpTo(hash, keys, |bits|, bits, x, |keys|)
  }

  /** Membership from the hash alone: under every key the bit at what remains of the hash is set. */
  lemma HoldsFromHash<T>(hash: Hash<T>, keys: seq<u64>, bits: seq<bool>, x: T)
    requires Sane(keys, |bits|)
    ensures Holds(hash, keys, bits, x)
       <==> forall k, p :: 0 <= k < |keys| && 0 <= p < |bits| && IsRest(hash(x, keys[k]), |bits|, p) ==> bits[p]
  {
    forall k | 0 <= k < |keys|
      ensures IsRest(hash(x, keys[k]), |bits|, Position(hash, keys, |bits|, x, k))
    {
      PositionIsRest(hash, keys, |bits|, x, k);
    }
    forall k, p | 0 <= k < |keys| && 0 <= p < |bits| && IsRest(hash(x, keys[k]), |bits|, p)
      ensures p == Position(hash, keys, |bits|, x, k)
    {
      RestUnique(hash(x, keys[k]), |bits|, p, Position(hash, keys, |bits|, x, k));
    }
  }

  lemma CoveredByConcat<T>(hash: Hash<T>, keys: seq<u64>, numBits: nat, a: seq<T>, b: seq<T>, p: nat)
    requires Sane(keys, numBits)
    ensures Covered(hash, keys, numBits, a + b, p)
       <==> Covered(hash, keys, numBits, a, p) || Covered(hash, keys, numBits, b, p)
  {
    if Covered(hash, keys, numBits, a, p) {
      var j :| 0 <= j < |a| && IsPosition(hash, keys, numBits, a[j], p);
      assert (a + b)[j] == a[j];
    }
    if Covered(hash, keys, numBits, b, p) {
      var j :| 0 <= j < |b| && IsPosition(hash, keys, numBits, b[j], p);
      assert (a + b)[|a| + j] == b[j];
    }
  }

  /** Adding a batch and then another is adding both together. */
  lemma WithItemsConcat<T>(hash: Hash<T>, keys: seq<u64>, bits: seq<bool>, a: seq<T>, b: seq<T>)
    requires Sane(keys, |bits|)
    ensures WithItems(hash, keys, WithItems(hash, keys, bits, a), b) == WithItems(hash, keys, bits, a + b)
  {
    forall p | 0 <= p < |bits|
      ensures WithItems(hash, keys, WithItems(hash, keys, bits, a), b)[p] == WithItems(hash, keys, bits, a + b)[p]
    {
      CoveredByConcat(hash, keys, |bits|, a, b, p);
    }
  }

  function SaturatingAdd(n: nat, m: nat): nat
  {
    if n + m <= U64_MAX then n + m else U64_MAX
  }

  // ---------------------------------------------------------------- conversions

  ghost predicate WellPacked(a: Packed)
  {
    && Sane(a.keys, a.numBits)
    && |a.words| == (a.numBits + 63) / 64
    && AreWords(a.words)
  }

  /** The bits in the last word beyond the length of the filter are clear. */
  ghost predicate PaddingClear(a: Packed)
    requires WellPacked(a)
  {
    forall p :: a.numBits <= p < 64 * |a.words| ==> !Unpack(a.words)[p]
  }

  function ToPacked(b: Plain): (a: Packed)
    ensures Sane(b.keys, |b.bits|) ==> WellPacked(a)
  {
    UnpackPack(b.bits);
    Packed(|b.bits|, b.keys, Pack(b.bits))
  }

  /** The count is summed over whole words before the vector is truncated. */
  function ToPlain(a: Packed): Plain
    requires |a.words| == (a.numBits + 63) / 64
  {
    Plain(a.keys, Unpack(a.words)[..a.numBits], SumOnes(a.words))
  }

  lemma ToPackedKeepsBits(b: Plain)
    requires Sane(b.keys, |b.bits|)
    ensures PaddingClear(ToPacked(b))
    ensures Unpack(ToPacked(b).words)[..|b.bits|] == b.bits
  {
    UnpackPack(b.bits);
  }

  /** The summed count is the number of set bits of the filter exactly when the padding is clear. */
  lemma CountIsExactIffPaddingClear(a: Packed)
    requires WellPacked(a)
    ensures ToPlain(a).numBitsSet == CountTrue(ToPlain(a).bits) <==> PaddingClear(a)
  {
    SumOnesIsCountTrue(a.words);
    CountTrueOfPrefix(Unpack(a.words), a.numBits);
  }

  /** Plain to packed and back is the identity exactly when the cached count was right. */
  lemma PlainRoundTrip(b: Plain)
    requires Sane(b.keys, |b.bits|)
    ensures ToPlain(ToPacked(b)) == b <==> b.numBitsSet == CountTrue(b.bits)
  {
    ToPackedKeepsBits(b);
    CountIsExactIffPaddingClear(ToPacked(b));
  }

  /** Packed to plain and back is the identity exactly when the padding is clear. */
  lemma PackedRoundTrip(a: Packed)
    requires WellPacked(a)
    ensures ToPacked(ToPlain(a)) == a <==> PaddingClear(a)
  {
    var b := ToPlain(a);
    var again := ToPacked(b);
    ToPackedKeepsBits(b);
    if PaddingClear(a) {
      SameBits(Unpack(a.words), Unpack(again.words), a.numBits);
      UnpackInjective(again.words, a.words);
    }
  }

  lemma SameBits(a: seq<bool>, b: seq<bool>, n: nat)
    requires |a| == |b| && n <= |a| && a[..n] == b[..n]
    requires forall p :: n <= p < |a| ==> !a[p] && !b[p]
    ensures a == b
  {
    assert a == a[..n] + a[n..] && b == b[..n] + b[n..];
  }
}
