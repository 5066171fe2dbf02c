/**
 * Whole lives of a filter: created, added to and cleared by its owner, shared, used by any number of
 * overlapping calls, cleared again while shared, and taken back; any number of times.
 */
module BloomHistory {
  import opened Prelude
  import opened Bits
  import opened BloomSpec
  import opened BitMachine
  import opened Interleaving

  datatype Filter = Owned(plain: Plain) | Shared(packed: Packed)

  datatype Event<T> =
    | Add(item: T)
    | Clear
    | Share
    | Overlap(items: seq<T>, queries: seq<T>, schedule: seq<nat>)
    | ClearForTests
    | Unshare

  function New(numBits: nat, keys: seq<u64>): Plain
  {
    Plain(keys, Zeros(numBits), 0)
  }

  ghost predicate WellFormed(f: Filter)
  {
    match f
    case Owned(b) => Sane(b.keys, |b.bits|)
    case Shared(a) => WellPacked(a)
  }

  /** The filter as its owner sees it, or would see it after taking it back. */
  ghost function AsPlain(f: Filter): (b: Plain)
    requires WellFormed(f)
    ensures Sane(b.keys, |b.bits|)
  {
    match f
    case Owned(b) => b
    case Shared(a) => ToPlain(a)
  }

  /** Overlapping calls have all returned before anything else happens to the filter as a whole. */
  ghost predicate Legal<T>(hash: Hash<T>, f: Filter, e: Event<T>)
    requires WellFormed(f)
  {
    match e
    case Add(_) => f.Owned?
    case Clear => f.Owned?
    case Share => f.Owned?
    case Overlap(items, queries, schedule) =>
      f.Shared? && AllReturned(AtomicRun(hash, System(f.packed, Calls(items, queries)), schedule))
    case ClearForTests => f.Shared?
    case Unshare => f.Shared?
  }

  /** The count moves by the number of bits that turn on. */
  ghost function Added<T>(hash: Hash<T>, b: Plain, x: T): (r: Plain)
    requires Sane(b.keys, |b.bits|)
    ensures r.keys == b.keys && |r.bits| == |b.bits|
  {
    var bits := WithItems(hash, b.keys, b.bits, [x]);
    CountTrueMonotone(b.bits, bits);
    Plain(b.keys, bits, SaturatingAdd(b.numBitsSet, CountTrue(bits) - CountTrue(b.bits)))
  }

  function Cleared(a: Packed): Packed
  {
    a.(words := seq(|a.words|, _ => 0))
  }

  /** What an event makes of a filter; an event that does not fit the form changes nothing. */
  ghost function Apply<T>(hash: Hash<T>, f: Filter, e: Event<T>): (r: Filter)
    requires WellFormed(f)
    ensures WellFormed(r) && AsPlain(r).keys == AsPlain(f).keys && |AsPlain(r).bits| == |AsPlain(f).bits|
  {
    match (f, e)
    case (Owned(b), Add(x)) => Owned(Added(hash, b, x))
    case (Owned(b), Clear) => Owned(New(|b.bits|, b.keys))
    case (Owned(b), Share) => Shared(ToPacked(b))
    case (Shared(a), Overlap(items, queries, schedule)) =>
      Shared(AtomicRun(hash, System(a, Calls(items, queries)), schedule).filter)
    case (Shared(a), ClearForTests) => UnpackZeros(Cleared(a).words); Shared(Cleared(a))
    case (Shared(a), Unshare) => Owned(ToPlain(a))
    case _ => f
  }

  ghost function After<T>(hash: Hash<T>, f: Filter, events: seq<Event<T>>): (r: Filter)
    requires WellFormed(f)
    ensures WellFormed(r) && AsPlain(r).keys == AsPlain(f).keys && |AsPlain(r).bits| == |AsPlain(f).bits|
  {
    if events == [] then f else Apply(hash, After(hash, f, events[..|events| - 1]), events[|events| - 1])
  }

  /** Every event was legal when it happened. */
  ghost predicate LegalLife<T>(hash: Hash<T>, f: Filter, events: seq<Event<T>>)
    requires WellFormed(f)
  {
    events == [] ||
    var before, e := events[..|events| - 1], events[|events| - 1];
    LegalLife(hash, f, before) && Legal(hash, After(hash, f, before), e)
  }

  /** The items added since the filter was last cleared. */
  function Live<T>(events: seq<Event<T>>): seq<T>
  {
    if events == [] then []
    else
      var before := Live(events[..|events| - 1]);
      match events[|events| - 1]
      case Add(x) => before + [x]
      case Overlap(items, _, _) => before + items
      case Clear => []
      case ClearForTests => []
      case Share => before
      case Unshare => before
  }

  lemma {:induction false} CountTrueMonotone(a: seq<bool>, b: seq<bool>)
    requires |a| == |b| && forall i :: 0 <= i < |a| ==> a[i] ==> b[i]
    ensures CountTrue(a) <= CountTrue(b)
  {
    if a != [] { CountTrueMonotone(a[1..], b[1..]); }
  }

  // ---------------------------------------------------------------- what every event keeps

  /** The set bits are the positions of the items, and the count is their number. */
  ghost predicate Holding<T>(hash: Hash<T>, numBits: nat, b: Plain, items: seq<T>)
    requires Sane(b.keys, |b.bits|)
  {
    && |b.bits| == numBits
    && b.bits == WithItems(hash, b.keys, Zeros(numBits), items)
    && b.numBitsSet == CountTrue(b.bits) <= numBits
  }

  lemma EmptyHoldsNothing<T>(hash: Hash<T>, numBits: nat, keys: seq<u64>)
    requires Sane(keys, numBits)
    ensures Holding(hash, numBits, New(numBits, keys), [])
  {
    CountTrueBound(Zeros(numBits));
    assert Zeros(numBits) == WithItems(hash, keys, Zeros(numBits), []);
  }

  lemma AddKeepsHolding<T>(hash: Hash<T>, numBits: u64, b: Plain, items: seq<T>, x: T)
    requires Sane(b.keys, |b.bits|) && Holding(hash, numBits, b, items)
    ensures Holding(hash, numBits, Added(hash, b, x), items + [x])
  {
    var r := Added(hash, b, x);
    WithItemsConcat(hash, b.keys, Zeros(numBits), items, [x]);
    CountTrueMonotone(b.bits, r.bits);
    CountTrueBound(r.bits);
  }

  lemma ShareKeepsHolding<T>(hash: Hash<T>, numBits: nat, b: Plain, items: seq<T>)
    requires Sane(b.keys, |b.bits|) && Holding(hash, numBits, b, items)
    ensures ToPlain(ToPacked(b)) == b
  {
    PlainRoundTrip(b);
  }

  lemma OverlapKeepsHolding<T>(
    hash: Hash<T>, numBits: nat, a: Packed, live: seq<T>, items: seq<T>, queries: seq<T>, schedule: seq<nat>)
    requires WellPacked(a) && Holding(hash, numBits, ToPlain(a), live)
    requires AllReturned(AtomicRun(hash, System(a, Calls(items, queries)), schedule))
    ensures var r := AtomicRun(hash, System(a, Calls(items, queries)), schedule).filter;
            Holding(hash, numBits, ToPlain(r), live + items)
  {
    var r := AtomicRun(hash, System(a, Calls(items, queries)), schedule).filter;
    CountIsExactIffPaddingClear(a);
    ConcurrentCallsRefineSequential(hash, a, items, queries, schedule);
    CountIsExactIffPaddingClear(r);
    WithItemsConcat(hash, a.keys, Zeros(numBits), live, items);
    CountTrueBound(ToPlain(r).bits);
  }

  lemma ClearedIsNew(a: Packed)
    requires WellPacked(a)
    ensures WellPacked(Cleared(a)) && ToPlain(Cleared(a)) == New(a.numBits, a.keys)
  {
    UnpackZeros(Cleared(a).words);
  }

  /**
   * In every reachable state the set bits are the positions of the live items, and the count, cached
   * or summed over words, is their number: it never saturates and never exceeds the length.
   */
  lemma {:induction false} ReachableState<T>(hash: Hash<T>, numBits: u64, keys: seq<u64>, events: seq<Event<T>>)
    requires Sane(keys, numBits) && LegalLife(hash, Owned(New(numBits, keys)), events)
    ensures Holding(hash, numBits, AsPlain(After(hash, Owned(New(numBits, keys)), events)), Live(events))
    decreases |events|
  {
    EmptyHoldsNothing(hash, numBits, keys);
    if events != [] {
      var before, e := events[..|events| - 1], events[|events| - 1];
      var was, live := After(hash, Owned(New(numBits, keys)), before), Live(before);
      ReachableState(hash, numBits, keys, before);
      match e {
        case Add(x) => AddKeepsHolding(hash, numBits, was.plain, live, x);
        case Clear =>
        case Share => ShareKeepsHolding(hash, numBits, was.plain, live);
        case Overlap(items, queries, schedule) =>
          OverlapKeepsHolding(hash, numBits, was.packed, live, items, queries, schedule);
        case ClearForTests => ClearedIsNew(was.packed);
        case Unshare =>
      }
    }
  }

  // ---------------------------------------------------------------- what callers may rely on

  /** Membership: true exactly when every position of x belongs to some live item. */
  lemma ContainsIffCovered<T>(
    hash: Hash<T>, numBits: u64, keys: seq<u64>, events: seq<Event<T>>, x: T)
    requires Sane(keys, numBits) && LegalLife(hash, Owned(New(numBits, keys)), events)
    ensures Holds(hash, keys, AsPlain(After(hash, Owned(New(numBits, keys)), events)).bits, x)
       <==> forall k :: 0 <= k < |keys| ==>
              Covered(hash, keys, numBits, Live(events), Position(hash, keys, numBits, x, k))
  {
    ReachableState(hash, numBits, keys, events);
  }

  lemma MemberIsCovered<T>(hash: Hash<T>, keys: seq<u64>, numBits: nat, items: seq<T>, x: T)
    requires Sane(keys, numBits) && x in items
    ensures forall k :: 0 <= k < |keys| ==> Covered(hash, keys, numBits, items, Position(hash, keys, numBits, x, k))
  {
    var j :| 0 <= j < |items| && items[j] == x;
    forall k | 0 <= k < |keys|
      ensures Covered(hash, keys, numBits, items, Position(hash, keys, numBits, x, k))
    {
      assert IsPosition(hash, keys, numBits, items[j], Position(hash, keys, numBits, x, k));
    }
  }

  lemma NoFalseNegatives<T>(
    hash: Hash<T>, numBits: u64, keys: seq<u64>, events: seq<Event<T>>, x: T)
    requires Sane(keys, numBits) && LegalLife(hash, Owned(New(numBits, keys)), events)
    requires x in Live(events)
    ensures Holds(hash, keys, AsPlain(After(hash, Owned(New(numBits, keys)), events)).bits, x)
  {
    ContainsIffCovered(hash, numBits, keys, events, x);
    MemberIsCovered(hash, keys, numBits, Live(events), x);
  }

  /**
   * A query that has returned while adds overlap it, in any life: it found every item that was live
   * when it began, whatever the schedule and however many calls are still running.
   */
  lemma OverlappedQueryFindsLive<T>(
    hash: Hash<T>, numBits: u64, keys: seq<u64>, events: seq<Event<T>>,
    items: seq<T>, queries: seq<T>, schedule: seq<nat>, q: nat)
    requires Sane(keys, numBits) && LegalLife(hash, Owned(New(numBits, keys)), events)
    requires After(hash, Owned(New(numBits, keys)), events).Shared?
    requires q < |queries| && queries[q] in Live(events)
    requires var s := System(After(hash, Owned(New(numBits, keys)), events).packed, Calls(items, queries));
             Returned(AtomicRun(hash, s, schedule), |items| + q)
    ensures var s := System(After(hash, Owned(New(numBits, keys)), events).packed, Calls(items, queries));
            var th := AtomicRun(hash, s, schedule).threads[|items| + q];
            th.Reader? && th.found
  {
    var a := After(hash, Owned(New(numBits, keys)), events).packed;
    NoFalseNegatives(hash, numBits, keys, events, queries[q]);
    QueryFindsHeld(hash, a, items, queries, schedule, q);
  }

  lemma QueryFindsHeld<T>(
    hash: Hash<T>, a: Packed, items: seq<T>, queries: seq<T>, schedule: seq<nat>, q: nat)
    requires WellPacked(a) && q < |queries| && Holds(hash, a.keys, ToPlain(a).bits, queries[q])
    requires Returned(AtomicRun(hash, System(a, Calls(items, queries)), schedule), |items| + q)
    ensures var th := AtomicRun(hash, System(a, Calls(items, queries)), schedule).threads[|items| + q];
            th.Reader? && th.found
  {
    var s := System(a, Calls(items, queries));
    HoldsIsAllSet(hash, s, queries[q]);
    ContainsIsBracketed(hash, s, schedule, |items| + q, queries[q]);
  }

  /** Two lives that leave the same set of items live end in the same filter, count and words included. */
  lemma OnlyTheLiveSetMatters<T>(
    hash: Hash<T>, numBits: u64, keys: seq<u64>, one: seq<Event<T>>, two: seq<Event<T>>)
    requires Sane(keys, numBits)
    requires LegalLife(hash, Owned(New(numBits, keys)), one) && LegalLife(hash, Owned(New(numBits, keys)), two)
    requires forall x :: x in Live(one) <==> x in Live(two)
    ensures var a, b := After(hash, Owned(New(numBits, keys)), one), After(hash, Owned(New(numBits, keys)), two);
            AsPlain(a) == AsPlain(b) && (a.Shared? == b.Shared? ==> a == b)
  {
    ReachableState(hash, numBits, keys, one);
    ReachableState(hash, numBits, keys, two);
    WithItemsDependsOnSet(hash, keys, Zeros(numBits), Live(one), Live(two));
    ReachableRoundTrip(hash, numBits, keys, one);
    ReachableRoundTrip(hash, numBits, keys, two);
  }

  lemma WithItemsDependsOnSet<T>(
    hash: Hash<T>, keys: seq<u64>, bits: seq<bool>, a: seq<T>, b: seq<T>)
    requires Sane(keys, |bits|) && (forall x :: x in a <==> x in b)
    ensures WithItems(hash, keys, bits, a) == WithItems(hash, keys, bits, b)
  {
    forall p | 0 <= p < |bits|
      ensures WithItems(hash, keys, bits, a)[p] == WithItems(hash, keys, bits, b)[p]
    {
      CoveredMonotone(hash, keys, |bits|, a, b, p);
      CoveredMonotone(hash, keys, |bits|, b, a, p);
    }
  }

  lemma CoveredMonotone<T>(
    hash: Hash<T>, keys: seq<u64>, numBits: nat, a: seq<T>, b: seq<T>, p: nat)
    requires Sane(keys, numBits) && (forall x :: x in a ==> x in b)
    ensures Covered(hash, keys, numBits, a, p) ==> Covered(hash, keys, numBits, b, p)
  {
    if Covered(hash, keys, numBits, a, p) {
      var j :| 0 <= j < |a| && IsPosition(hash, keys, numBits, a[j], p);
      assert a[j] in b;
      var i :| 0 <= i < |b| && b[i] == a[j];
    }
  }

  /** A reachable filter survives a trip through the other form unchanged, count and words included. */
  lemma ReachableRoundTrip<T>(hash: Hash<T>, numBits: u64, keys: seq<u64>, events: seq<Event<T>>)
    requires Sane(keys, numBits) && LegalLife(hash, Owned(New(numBits, keys)), events)
    ensures match After(hash, Owned(New(numBits, keys)), events)
            case Owned(b) => ToPlain(ToPacked(b)) == b
            case Shared(a) => ToPacked(ToPlain(a)) == a
  {
    ReachableState(hash, numBits, keys, events);
    match After(hash, Owned(New(numBits, keys)), events) {
      case Owned(b) => PlainRoundTrip(b);
      case Shared(a) =>
        CountIsExactIffPaddingClear(a);
        PackedRoundTrip(a);
    }
  }
}
