/**
 * The two filters as objects: `Bloom`, changed by its owner, and `AtomicBloom`, whose word array
 * is shared. The methods of `AtomicBloom` are its calls with no other thread running.
 */
module BloomFilters {
  import opened Prelude
  import opened Bits
  import opened BloomSpec
  import opened BitMachine
  import opened Interleaving
  import opened BloomHistory

  class Bloom<T> {
    const hash: Hash<T>
    var keys: seq<u64>
    var bits: seq<bool>
    var numBitsSet: nat

    ghost function Value(): Plain
      reads this
    {
      Plain(keys, bits, numBitsSet)
    }

    constructor (hash: Hash<T>, numBits: u64, keys: seq<u64>)
      ensures this.hash == hash && Value() == New(numBits, keys)
    {
      this.hash, this.keys, this.bits, this.numBitsSet := hash, keys, Zeros(numBits), 0;
    }

    constructor FromAtomic(a: AtomicBloom<T>)
      requires a.Valid()
      ensures hash == a.hash && Value() == ToPlain(a.Value())
      ensures Owned(Value()) == Apply(hash, Shared(a.Value()), Event<T>.Unshare)
    {
      hash, keys := a.hash, a.keys;
      bits := Unpack(a.bits[..])[..a.numBits];
      numBitsSet := SumOnes(a.bits[..]);
    }

    method Clear()
      modifies this
      ensures Value() == New(|old(bits)|, old(keys))
      ensures Sane(keys, |bits|) ==> Owned(Value()) == Apply(hash, Owned(old(Value())), Event<T>.Clear)
    {
      bits := Zeros(|bits|);
      numBitsSet := 0;
    }

    /** The count moves by the number of bits that turn on, so a right count stays right. */
    method Add(x: T)
      requires Sane(keys, |bits|) && numBitsSet <= U64_MAX
      modifies this`bits, this`numBitsSet
      ensures bits == WithItems(hash, keys, old(bits), [x])
      ensures CountTrue(old(bits)) <= CountTrue(bits)
      ensures var count := old(numBitsSet) + CountTrue(bits) - CountTrue(old(bits));
              numBitsSet == if count <= U64_MAX then count else U64_MAX
      ensures Owned(Value()) == Apply(hash, Owned(old(Value())), Event<T>.Add(x))
    {
      var k := 0;
      while k < |keys|
        invariant k <= |keys| && |bits| == |old(bits)|
        invariant forall p :: 0 <= p < |bits| ==>
                    (bits[p] <==> old(bits)[p] || exists j :: 0 <= j < k && Position(hash, keys, |bits|, x, j) == p)
        invariant CountTrue(old(bits)) <= CountTrue(bits)
        invariant numBitsSet == SaturatingAdd(old(numBitsSet), CountTrue(bits) - CountTrue(old(bits)))
      {
        var pos := Position(hash, keys, |bits|, x, k);
        CountTrueUpdate(bits, pos);
        if !bits[pos] {
          numBitsSet := SaturatingAdd(numBitsSet, 1);
          bits := bits[pos := true];
        }
        k := k + 1;
      }
      CoveredByOne(hash, keys, |bits|, x);
    }

    method Contains(x: T) returns (r: bool)
      requires Sane(keys, |bits|)
      ensures r <==> Holds(hash, keys, bits, x)
    {
      var k := 0;
      while k < |keys|
        invariant k <= |keys| && HoldsUpTo(hash, keys, |bits|, bits, x, k)
      {
        if !bits[Position(hash, keys, |bits|, x, k)] { return false; }
        k := k + 1;
      }
      return true;
    }
  }

  lemma CoveredByOne<T>(hash: Hash<T>, keys: seq<u64>, numBits: nat, x: T)
    requires Sane(keys, numBits)
    ensures forall p :: Covered(hash, keys, numBits, [x], p) <==> IsPosition(hash, keys, numBits, x, p)
  {
    forall p | IsPosition(hash, keys, numBits, x, p)
      ensures Covered(hash, keys, numBits, [x], p)
    {
      assert IsPosition(hash, keys, numBits, [x][0], p);
    }
  }

  lemma HoldsOneMore<T>(hash: Hash<T>, keys: seq<u64>, bits: seq<bool>, x: T, k: nat)
    requires Sane(keys, |bits|) && k < |keys| && HoldsUpTo(hash, keys, |bits|, bits, x, k)
    requires bits[Position(hash, keys, |bits|, x, k)]
    ensures HoldsUpTo(hash, keys, |bits|, bits, x, k + 1)
  {
  }

  class AtomicBloom<T> {
    const hash: Hash<T>
    const numBits: nat
    const keys: seq<u64>
    const bits: array<nat>

    ghost function Value(): Packed
      reads bits
    {
      Packed(numBits, keys, bits[..])
    }

    ghost predicate Valid()
      reads bits
    {
      WellPacked(Value())
    }

    /** The same filter as the plain one would hold it. */
    ghost function Plainly(): Plain
      requires Valid()
      reads bits
    {
      ToPlain(Value())
    }

    constructor FromBloom(b: Bloom<T>)
      requires Sane(b.keys, |b.bits|)
      ensures Valid() && fresh(bits) && hash == b.hash && Value() == ToPacked(b.Value())
      ensures Shared(Value()) == Apply(hash, Owned(b.Value()), Event<T>.Share)
    {
      var words := Pack(b.bits);
      var cells := new nat[|words|](i requires 0 <= i < |words| => words[i]);
      hash, numBits, keys, bits := b.hash, |b.bits|, b.keys, cells;
      new;
      assert bits[..] == words;
      assert Value() == ToPacked(b.Value());
    }

    constructor MockClone(a: AtomicBloom<T>)
      requires a.Valid()
      ensures Valid() && fresh(bits) && hash == a.hash && Value() == a.Value()
    {
      var words := a.bits[..];
      var cells := new nat[|words|](i requires 0 <= i < |words| => words[i]);
      hash, numBits, keys, bits := a.hash, a.numBits, a.keys, cells;
      new;
      assert bits[..] == words;
    }

    /** The atomic operation of one key: or the mask in, and say whether the bit was clear. */
    method FetchOrKey(x: T, k: nat) returns (wasClear: bool)
      requires Valid() && k < |keys|
      modifies bits
      ensures Value() == FetchOr(hash, old(Value()), x, k)
      ensures wasClear <==> !LoadsSet(hash, old(Value()), x, k)
    {
      WordAndMaskReadTheBit(hash, Value(), x, k);
      var (index, mask) := WordAndMask(hash, Packed(numBits, keys, bits[..]), x, k);
      var prev := bits[index];
      bits[index] := Or(prev, mask);
      wasClear := And(prev, mask) == 0;
    }

    /** One undisturbed turn per key: the run of a single thread in the interleaving model. */
    method TakeTurns(x: T) returns (added: bool)
      requires Valid()
      modifies bits
      ensures var r := AtomicRun(hash, Start(old(Value()), [x]), Turns(0, |keys|));
              Value() == r.filter && r.threads == [Adder(x, |keys|, added)]
    {
      ghost var start := Start(Value(), [x]);
      added := false;
      var k := 0;
      while k < |keys|
        invariant k <= |keys| && Valid()
        invariant AtomicRun(hash, start, Turns(0, k)) == System(Value(), [Adder(x, k, added)])
      {
        AddTurn(hash, start, Value(), x, k, added);
        var wasClear := FetchOrKey(x, k);
        added := added || wasClear;
        k := k + 1;
      }
    }

    /** The answer says whether the item was missing before, also when several of its keys share a bit. */
    method Add(x: T) returns (added: bool)
      requires Valid()
      modifies bits
      ensures AddsAlone(hash, old(Value()), x, Value(), added)
      ensures var e := Overlap([x], [], Turns(0, |keys|));
              Legal(hash, Shared(old(Value())), e) && Shared(Value()) == Apply(hash, Shared(old(Value())), e)
    {
      UndisturbedAdd(hash, Value(), x);
      assert Calls([x], []) == Adders([x]);
      added := TakeTurns(x);
    }

    /** The atomic load of one key. */
    method LoadKey(x: T, k: nat) returns (isSet: bool)
      requires Valid() && k < |keys|
      ensures isSet <==> Plainly().bits[Position(hash, keys, numBits, x, k)]
    {
      WordAndMaskReadTheBit(hash, Value(), x, k);
      var (index, mask) := WordAndMask(hash, Packed(numBits, keys, bits[..]), x, k);
      isSet := And(bits[index], mask) != 0;
    }

    method Contains(x: T) returns (r: bool)
      requires Valid()
      ensures r <==> Holds(hash, keys, Plainly().bits, x)
    {
      ghost var view := Plainly().bits;
      var k := 0;
      while k < |keys|
        invariant k <= |keys| && view == Plainly().bits && HoldsUpTo(hash, keys, |view|, view, x, k)
      {
        var isSet := LoadKey(x, k);
        assert isSet <==> view[Position(hash, keys, |view|, x, k)];
        if !isSet { return false; }
        HoldsOneMore(hash, keys, view, x, k);
        k := k + 1;
      }
      return true;
    }

    method ClearForTests()
      requires Valid()
      modifies bits
      ensures Valid() && PaddingClear(Value())
      ensures Plainly() == New(numBits, keys)
      ensures Shared(Value()) == Apply(hash, Shared(old(Value())), Event<T>.ClearForTests)
    {
      for i := 0 to bits.Length
        invariant forall j :: 0 <= j < i ==> bits[j] == 0
      {
        bits[i] := 0;
      }
      UnpackZeros(bits[..]);
      assert bits[..] == Cleared(old(Value())).words;
    }
  }
}
