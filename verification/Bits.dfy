/**
 * 64-bit words as natural numbers, with the bitwise operations the Bloom filter uses
 * written out on binary digits, and bit vectors packed into words, lowest bit first.
 */
module Bits {

  /** Bits in a word. */
  const WORD: nat := 64

  function Pow2(n: nat): nat
  {
    if n == 0 then 1 else 2 * Pow2(n - 1)
  }

  /** Binary digit i of w. */
  predicate Bit(w: nat, i: nat)
    decreases i
  {
    if i == 0 then w % 2 == 1 else Bit(w / 2, i - 1)
  }

  /** w | v */
  function Or(w: nat, v: nat): nat
    decreases w
  {
    if w == 0 then v
    else if v == 0 then w
    else 2 * Or(w / 2, v / 2) + (if w % 2 == 1 || v % 2 == 1 then 1 else 0)
  }

  /** w & v */
  function And(w: nat, v: nat): nat
    decreases w
  {
    if w == 0 || v == 0 then 0
    else 2 * And(w / 2, v / 2) + (if w % 2 == 1 && v % 2 == 1 then 1 else 0)
  }

  /** The population count of a word. */
  function CountOnes(w: nat): nat
  {
    if w == 0 then 0 else w % 2 + CountOnes(w / 2)
  }

  function CountTrue(bits: seq<bool>): nat
  {
    if bits == [] then 0 else (if bits[0] then 1 else 0) + CountTrue(bits[1..])
  }

  function Zeros(n: nat): (bits: seq<bool>)
    ensures |bits| == n
  {
    seq(n, _ => false)
  }

  // ---------------------------------------------------------------- digits

  lemma {:induction false} BitOfZero(i: nat)
    ensures !Bit(0, i)
    decreases i
  {
    if i > 0 { BitOfZero(i - 1); }
  }

  lemma {:induction false} BitOfPow2(j: nat, i: nat)
    ensures Bit(Pow2(j), i) <==> i == j
    decreases i
  {
    if j == 0 {
      if i > 0 { BitOfZero(i - 1); }
    } else if i > 0 {
      BitOfPow2(j - 1, i - 1);
    }
  }

  lemma {:induction false} BitOfOr(w: nat, v: nat, i: nat)
    ensures Bit(Or(w, v), i) <==> Bit(w, i) || Bit(v, i)
    decreases i
  {
    if w == 0 || v == 0 {
      BitOfZero(i);
    } else if i > 0 {
      BitOfOr(w / 2, v / 2, i - 1);
    }
  }

  /** Testing a word against a one-bit mask reads exactly that bit. */
  lemma {:induction false} AndPow2(w: nat, j: nat)
    ensures And(w, Pow2(j)) != 0 <==> Bit(w, j)
    decreases j
  {
    Pow2Positive(j);
    if w == 0 {
      BitOfZero(j);
    } else if j == 0 {
      assert And(w / 2, 0) == 0;
    } else {
      AndPow2(w / 2, j - 1);
    }
  }

  lemma {:induction false} Pow2Positive(n: nat)
    ensures Pow2(n) > 0
  {
    if n > 0 { Pow2Positive(n - 1); }
  }

  lemma {:induction false} Pow2Monotone(j: nat, n: nat)
    requires j < n
    ensures Pow2(j) < Pow2(n)
  {
    Pow2Positive(j);
    Pow2Positive(n - 1);
    if j + 1 < n { Pow2Monotone(j, n - 1); }
  }

  lemma {:induction false} OrBound(w: nat, v: nat, n: nat)
    requires w < Pow2(n) && v < Pow2(n)
    ensures Or(w, v) < Pow2(n)
    decreases n
  {
    if w != 0 && v != 0 {
      if n > 0 { OrBound(w / 2, v / 2, n - 1); }
    }
  }

  /** w << n */
  function Shl(w: nat, n: nat): nat
    decreases n
  {
    if n == 0 then w else 2 * Shl(w, n - 1)
  }

  lemma AndOdd(p: nat, m: nat)
    ensures And(p, 2 * m + 1) == 2 * And(p / 2, m) + p % 2
  {
  }

  lemma {:induction false} AndLowStep(high: nat, low: nat, m: nat)
    requires And(high + low / 2, m) == low / 2
    ensures And(2 * high + low, 2 * m + 1) == low
  {
    AndOdd(2 * high + low, m);
    assert (2 * high + low) / 2 == high + low / 2;
  }

  /** A mask of n ones keeps the n low digits. */
  lemma {:induction false} AndLowBits(high: nat, low: nat, n: nat)
    requires low < Pow2(n)
    ensures And(Shl(high, n) + low, Pow2(n) - 1) == low
    decreases n
  {
    if n > 0 {
      AndLowBits(high, low / 2, n - 1);
      AndLowStep(Shl(high, n - 1), low, Pow2(n - 1) - 1);
    }
  }

  /** The low six bits of a position are its remainder by 64. */
  lemma And63(p: nat)
    ensures And(p, 63) == p % 64
  {
    assert Pow2(6) == 64 && Shl(p / 64, 6) == 64 * (p / 64);
    AndLowBits(p / 64, p % 64, 6);
  }

  // ---------------------------------------------------------------- counting

  lemma {:induction false} CountTrueConcat(a: seq<bool>, b: seq<bool>)
    ensures CountTrue(a + b) == CountTrue(a) + CountTrue(b)
  {
    if a == [] {
      assert a + b == b;
    } else {
      assert (a + b)[1..] == a[1..] + b;
      CountTrueConcat(a[1..], b);
    }
  }

  /** Setting one bit raises the count by one exactly when the bit was clear. */
  lemma {:induction false} CountTrueUpdate(bits: seq<bool>, i: nat)
    requires i < |bits|
    ensures CountTrue(bits[i := true]) == CountTrue(bits) + (if bits[i] then 0 else 1)
  {
    if i > 0 {
      assert bits[i := true][1..] == bits[1..][i - 1 := true];
      CountTrueUpdate(bits[1..], i - 1);
    } else {
      assert bits[i := true][1..] == bits[1..];
    }
  }

  lemma {:induction false} CountTrueBound(bits: seq<bool>)
    ensures CountTrue(bits) <= |bits|
    ensures CountTrue(bits) == 0 <==> forall i :: 0 <= i < |bits| ==> !bits[i]
  {
    if bits != [] {
      CountTrueBound(bits[1..]);
      assert forall i :: 0 < i < |bits| ==> bits[i] == bits[1..][i - 1];
      assert forall i :: 0 <= i < |bits| - 1 ==> bits[1..][i] == bits[i + 1];
    }
  }

  /** A prefix holds all the set bits exactly when nothing is set beyond it. */
  lemma CountTrueOfPrefix(bits: seq<bool>, n: nat)
    requires n <= |bits|
    ensures CountTrue(bits) == CountTrue(bits[..n]) <==> forall p :: n <= p < |bits| ==> !bits[p]
  {
    var tail := bits[n..];
    assert bits == bits[..n] + tail;
    CountTrueConcat(bits[..n], tail);
    CountTrueBound(tail);
    assert forall p :: n <= p < |bits| ==> bits[p] == tail[p - n];
    assert forall i :: 0 <= i < |tail| ==> tail[i] == bits[i + n];
  }

  // ---------------------------------------------------------------- packing

  /** The low n digits of w, lowest first. */
  function WordBits(w: nat, n: nat): (bits: seq<bool>)
    ensures |bits| == n
    decreases n, w
  {
    if n == 0 then [] else [w % 2 == 1] + WordBits(w / 2, n - 1)
  }

  /** The number whose digits, lowest first, are the given bits. */
  function FromBits(bits: seq<bool>): nat
  {
    if bits == [] then 0 else (if bits[0] then 1 else 0) + 2 * FromBits(bits[1..])
  }

  /** The bits of a vector of words, 64 per word: what a bit vector built from the words holds. */
  function Unpack(words: seq<nat>): (bits: seq<bool>)
    ensures |bits| == 64 * |words|
  {
    if words == [] then [] else WordBits(words[0], WORD) + Unpack(words[1..])
  }

  /** The 64-bit blocks that store a bit vector; the last block is padded with zeros. */
  function Pack(bits: seq<bool>): (words: seq<nat>)
    ensures |words| == (|bits| + 63) / 64
  {
    if bits == [] then []
    else if |bits| <= 64 then [FromBits(bits)]
    else [FromBits(bits[..64])] + Pack(bits[64..])
  }

  /** The sum of the population counts of the words. */
  function SumOnes(words: seq<nat>): nat
  {
    if words == [] then 0 else CountOnes(words[0]) + SumOnes(words[1..])
  }

  lemma {:induction false} WordBitsIndex(w: nat, n: nat, i: nat)
    requires i < n
    ensures WordBits(w, n)[i] == Bit(w, i)
    decreases n
  {
    if i > 0 { WordBitsIndex(w / 2, n - 1, i - 1); }
  }

  lemma {:induction false} WordBitsFromBits(bits: seq<bool>, n: nat)
    requires |bits| <= n
    ensures WordBits(FromBits(bits), n) == bits + Zeros(n - |bits|)
    decreases n
  {
    if n > 0 {
      if bits == [] {
        WordBitsFromBits([], n - 1);
        assert [false] + Zeros(n - 1) == Zeros(n);
      } else {
        WordBitsFromBits(bits[1..], n - 1);
        assert FromBits(bits) / 2 == FromBits(bits[1..]);
        assert [bits[0]] + (bits[1..] + Zeros(n - |bits|)) == bits + Zeros(n - |bits|);
      }
    }
  }

  lemma {:induction false} FromBitsBound(bits: seq<bool>)
    ensures FromBits(bits) < Pow2(|bits|)
  {
    if bits != [] { FromBitsBound(bits[1..]); }
  }

  lemma {:induction false} FromBitsWordBits(w: nat, n: nat)
    requires w < Pow2(n)
    ensures FromBits(WordBits(w, n)) == w
    decreases n
  {
    if n > 0 {
      FromBitsWordBits(w / 2, n - 1);
      assert WordBits(w, n)[1..] == WordBits(w / 2, n - 1);
    }
  }

  lemma {:induction false} CountOnesIsCountTrue(w: nat, n: nat)
    requires w < Pow2(n)
    ensures CountOnes(w) == CountTrue(WordBits(w, n))
    decreases n
  {
    if n > 0 {
      CountOnesIsCountTrue(w / 2, n - 1);
      assert WordBits(w, n)[1..] == WordBits(w / 2, n - 1);
      if w == 0 { assert CountOnes(w / 2) == 0; }
    }
  }

  ghost predicate AreWords(words: seq<nat>)
  {
    forall k :: 0 <= k < |words| ==> words[k] < Pow2(WORD)
  }

  lemma {:induction false} UnpackIndex(words: seq<nat>, p: nat)
    requires p < 64 * |words|
    ensures Unpack(words)[p] == Bit(words[p / 64], p % 64)
  {
    if p < 64 {
      WordBitsIndex(words[0], WORD, p);
    } else {
      var rest, q := words[1..], p - 64;
      UnpackIndex(rest, q);
      assert Unpack(words)[p] == Unpack(rest)[q];
      assert q / 64 == p / 64 - 1 && q % 64 == p % 64;
    }
  }

  /** Counting ones word by word counts every bit, padding included. */
  lemma {:induction false} SumOnesIsCountTrue(words: seq<nat>)
    requires AreWords(words)
    ensures SumOnes(words) == CountTrue(Unpack(words))
  {
    if words != [] {
      CountOnesIsCountTrue(words[0], WORD);
      SumOnesIsCountTrue(words[1..]);
      CountTrueConcat(WordBits(words[0], WORD), Unpack(words[1..]));
    }
  }

  /** How many clear bits follow n bits in their last block. */
  function Padding(n: nat): (r: nat)
    ensures r == 64 * ((n + 63) / 64) - n && r < 64
  {
    (64 - n % 64) % 64
  }

  /** The blocks are words that hold the bits, followed by clear padding. */
  ghost predicate Stores(words: seq<nat>, bits: seq<bool>)
  {
    AreWords(words) && Unpack(words) == bits + Zeros(Padding(|bits|))
  }

  lemma PaddingRepeats(n: nat)
    ensures Padding(n + 64) == Padding(n) && (0 < n <= 64 ==> Padding(n) == 64 - n)
  {
  }

  lemma JoinPadded(bits: seq<bool>, tail: seq<bool>, pad: nat)
    requires |bits| > 64 && tail == bits[64..] + Zeros(pad)
    ensures bits[..64] + tail == bits + Zeros(pad)
  {
  }

  lemma WordsCons(w: nat, words: seq<nat>)
    requires w < Pow2(WORD) && AreWords(words)
    ensures AreWords([w] + words)
  {
  }

  lemma StoresLast(bits: seq<bool>)
    requires 0 < |bits| <= 64
    ensures Stores([FromBits(bits)], bits)
  {
    PackBlock(bits);
    UnpackCons(FromBits(bits), []);
    assert [FromBits(bits)] + [] == [FromBits(bits)];
    PaddingRepeats(|bits|);
  }

  lemma StoresMore(bits: seq<bool>, words: seq<nat>)
    requires |bits| > 64 && Stores(words, bits[64..])
    ensures Stores([FromBits(bits[..64])] + words, bits)
  {
    PackBlock(bits[..64]);
    UnpackCons(FromBits(bits[..64]), words);
    WordsCons(FromBits(bits[..64]), words);
    PaddingRepeats(|bits| - 64);
    JoinPadded(bits, Unpack(words), Padding(|bits|));
    assert bits[..64] + Zeros(0) == bits[..64];
  }

  /** Unpacking what was packed gives the bits back, followed by clear padding. */
  lemma {:induction false} UnpackPack(bits: seq<bool>)
    ensures Stores(Pack(bits), bits)
    decreases |bits|
  {
    if bits == [] {
    } else if |bits| <= 64 {
      StoresLast(bits);
    } else {
      UnpackPack(bits[64..]);
      StoresMore(bits, Pack(bits[64..]));
    }
  }

  lemma UnpackCons(w: nat, words: seq<nat>)
    ensures Unpack([w] + words) == WordBits(w, WORD) + Unpack(words)
  {
    assert ([w] + words)[1..] == words;
  }

  lemma {:induction false} PackBlock(bits: seq<bool>)
    requires |bits| <= 64
    ensures FromBits(bits) < Pow2(WORD)
    ensures WordBits(FromBits(bits), WORD) == bits + Zeros(64 - |bits|)
  {
    WordBitsFromBits(bits, WORD);
    FromBitsBound(bits);
    if |bits| < 64 { Pow2Monotone(|bits|, WORD); }
  }

  /** Words are determined by their bits. */
  lemma {:induction false} UnpackInjective(v: seq<nat>, w: seq<nat>)
    requires AreWords(v) && AreWords(w)
    requires |v| == |w| && Unpack(v) == Unpack(w)
    ensures v == w
  {
    if v != [] {
      UnpackSplit(v);
      UnpackSplit(w);
      FromBitsWordBits(v[0], WORD);
      FromBitsWordBits(w[0], WORD);
      UnpackInjective(v[1..], w[1..]);
      assert v == [v[0]] + v[1..] && w == [w[0]] + w[1..];
    }
  }

  lemma UnpackSplit(words: seq<nat>)
    requires words != []
    ensures Unpack(words)[..64] == WordBits(words[0], WORD) && Unpack(words)[64..] == Unpack(words[1..])
  {
  }

  lemma OrSetsBitAt(words: seq<nat>, p: nat, q: nat)
    requires p < 64 * |words| && q < 64 * |words|
    ensures Unpack(words[p / 64 := Or(words[p / 64], Pow2(p % 64))])[q] == (Unpack(words)[q] || q == p)
  {
    var k, mask := p / 64, Pow2(p % 64);
    UnpackIndex(words, q);
    UnpackIndex(words[k := Or(words[k], mask)], q);
    BitOfOr(words[k], mask, q % 64);
    BitOfPow2(p % 64, q % 64);
  }

  /**
   * Or-ing the one-bit mask of p % 64 into word p / 64 sets bit p of the vector and no other.
   */
  lemma OrSetsBit(words: seq<nat>, p: nat)
    requires AreWords(words) && p < 64 * |words|
    ensures var w := words[p / 64 := Or(words[p / 64], Pow2(p % 64))];
            AreWords(w) && Unpack(w) == Unpack(words)[p := true]
    ensures And(words[p / 64], Pow2(p % 64)) == 0 <==> !Unpack(words)[p]
  {
    var k, mask := p / 64, Pow2(p % 64);
    var w := words[k := Or(words[k], mask)];
    OrKeepsWords(words, k, p % 64);
    forall q | 0 <= q < 64 * |words|
      ensures Unpack(w)[q] == (Unpack(words)[q] || q == p)
    {
      OrSetsBitAt(words, p, q);
    }
    SetOneBit(Unpack(words), p, Unpack(w));
    AndPow2(words[k], p % 64);
    UnpackIndex(words, p);
  }

  lemma OrKeepsWords(words: seq<nat>, k: nat, j: nat)
    requires AreWords(words) && k < |words| && j < 64
    ensures AreWords(words[k := Or(words[k], Pow2(j))])
  {
    Pow2Monotone(j, WORD);
    OrBound(words[k], Pow2(j), WORD);
  }

  lemma SetOneBit(bits: seq<bool>, p: nat, r: seq<bool>)
    requires p < |bits| == |r| && forall q :: 0 <= q < |bits| ==> r[q] == (bits[q] || q == p)
    ensures r == bits[p := true]
  {
  }

  /** Cleared words hold no bit. */
  lemma {:induction false} UnpackZeros(words: seq<nat>)
    requires forall k :: 0 <= k < |words| ==> words[k] == 0
    ensures AreWords(words) && Unpack(words) == Zeros(64 * |words|) && SumOnes(words) == 0
  {
    if words != [] {
      UnpackZeros(words[1..]);
      WordBitsFromBits([], WORD);
      Pow2Positive(WORD);
      assert Zeros(WORD) + Zeros(64 * |words[1..]|) == Zeros(64 * |words|);
    }
  }
}
