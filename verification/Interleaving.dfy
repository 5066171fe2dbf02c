/**
 * The shared filter as it is stored: 64-bit words, each touched only by an atomic `fetch_or` or
 * `load`. Every run on words refines the run of the same schedule on bits.
 */
module Interleaving {
  import opened Prelude
  import opened Bits
  import opened BloomSpec
  import opened BitMachine
  import opened AddAnswers
  import opened Choices

  datatype System<T> = System(filter: Packed, threads: seq<Thread<T>>)

  /** `AtomicBloom::pos`: the word to touch and the one-bit mask to use. */
  function WordAndMask<T>(hash: Hash<T>, f: Packed, x: T, k: nat): (nat, nat)
    requires Sane(f.keys, f.numBits) && k < |f.keys|
  {
    var p := Position(hash, f.keys, f.numBits, x, k);
    (p / Pow2(6), Pow2(And(p, 63)))
  }

  /** The word exists, and word and mask name exactly the bit the plain filter would use. */
  lemma WordAndMaskNameTheBit<T>(hash: Hash<T>, f: Packed, x: T, k: nat)
    requires WellPacked(f) && k < |f.keys|
    ensures var p, (i, mask) := Position(hash, f.keys, f.numBits, x, k), WordAndMask(hash, f, x, k);
            && i == p / 64 < |f.words| && mask == Pow2(p % 64)
            && (And(f.words[i], mask) != 0 <==> Unpack(f.words)[p])
            && AreWords(f.words[i := Or(f.words[i], mask)])
            && Unpack(f.words[i := Or(f.words[i], mask)]) == Unpack(f.words)[p := true]
  {
    var p := Position(hash, f.keys, f.numBits, x, k);
    assert Pow2(6) == 64;
    And63(p);
    OrSetsBit(f.words, p);
  }

  /** Word and mask determine the position: different positions never share both. */
  lemma WordAndMaskInjective<T>(hash: Hash<T>, f: Packed, x: T, k: nat, y: T, j: nat)
    requires WellPacked(f) && k < |f.keys| && j < |f.keys|
    ensures WordAndMask(hash, f, x, k) == WordAndMask(hash, f, y, j)
       <==> Position(hash, f.keys, f.numBits, x, k) == Position(hash, f.keys, f.numBits, y, j)
  {
    WordAndMaskNameTheBit(hash, f, x, k);
    WordAndMaskNameTheBit(hash, f, y, j);
    var p, q := Position(hash, f.keys, f.numBits, x, k), Position(hash, f.keys, f.numBits, y, j);
    BitOfPow2(p % 64, p % 64);
    BitOfPow2(q % 64, p % 64);
  }

  lemma WordAndMaskReadTheBit<T>(hash: Hash<T>, f: Packed, x: T, k: nat)
    requires WellPacked(f) && k < |f.keys|
    ensures var (i, mask) := WordAndMask(hash, f, x, k);
            && i < |f.words|
            && (And(f.words[i], mask) != 0 <==> ToPlain(f).bits[Position(hash, f.keys, f.numBits, x, k)])
  {
    WordAndMaskNameTheBit(hash, f, x, k);
  }

  /** The filter after `fetch_or` with the word and mask of the k-th key. */
  ghost function FetchOr<T>(hash: Hash<T>, f: Packed, x: T, k: nat): (r: Packed)
    requires WellPacked(f) && k < |f.keys|
    ensures WellPacked(r) && r.keys == f.keys && r.numBits == f.numBits && |r.words| == |f.words|
  {
    WordAndMaskNameTheBit(hash, f, x, k);
    var (i, mask) := WordAndMask(hash, f, x, k);
    f.(words := f.words[i := Or(f.words[i], mask)])
  }

  /** The word of the k-th key, masked, is not zero. */
  ghost predicate LoadsSet<T>(hash: Hash<T>, f: Packed, x: T, k: nat)
    requires WellPacked(f) && k < |f.keys|
  {
    WordAndMaskNameTheBit(hash, f, x, k);
    var (i, mask) := WordAndMask(hash, f, x, k);
    And(f.words[i], mask) != 0
  }

  /** Both operations, seen on the vector of bits. */
  lemma AtomicOps<T>(hash: Hash<T>, f: Packed, x: T, k: nat)
    requires WellPacked(f) && k < |f.keys|
    ensures var p := Position(hash, f.keys, f.numBits, x, k);
            && Unpack(FetchOr(hash, f, x, k).words) == Unpack(f.words)[p := true]
            && (LoadsSet(hash, f, x, k) <==> Unpack(f.words)[p])
  {
    WordAndMaskNameTheBit(hash, f, x, k);
  }

  /** One atomic operation of thread t; a turn given to a finished call changes nothing. */
  ghost function AtomicStep<T>(hash: Hash<T>, s: System<T>, t: nat): (r: System<T>)
    requires WellPacked(s.filter)
    ensures WellPacked(r.filter) && |r.threads| == |s.threads|
    ensures r.filter.keys == s.filter.keys && r.filter.numBits == s.filter.numBits
  {
    if t >= |s.threads| || Finished(s.filter.keys, s.threads[t]) then s
    else
      match s.threads[t]
      case Adder(x, pc, added) =>
        System(FetchOr(hash, s.filter, x, pc),
               s.threads[t := Adder(x, pc + 1, added || !LoadsSet(hash, s.filter, x, pc))])
      case Reader(x, pc, _) =>
        s.(threads := s.threads[t := Reader(x, pc + 1, LoadsSet(hash, s.filter, x, pc))])
  }

  ghost function AtomicRun<T>(hash: Hash<T>, s: System<T>, schedule: seq<nat>): (r: System<T>)
    requires WellPacked(s.filter)
    ensures WellPacked(r.filter) && |r.threads| == |s.threads|
    ensures r.filter.keys == s.filter.keys && r.filter.numBits == s.filter.numBits
    decreases |schedule|
  {
    if schedule == [] then s else AtomicRun(hash, AtomicStep(hash, s, schedule[0]), schedule[1..])
  }

  /** The words as one vector of bits, padding included. */
  ghost function Abstract<T>(s: System<T>): (m: Machine<T>)
    requires WellPacked(s.filter)
    ensures Valid(m)
  {
    Machine(s.filter.keys, s.filter.numBits, Unpack(s.filter.words), s.threads)
  }

  /** A machine whose next operation is known takes that step. */
  lemma StepIs<T>(hash: Hash<T>, m: Machine<T>, t: nat, p: nat, r: Machine<T>)
    requires Valid(m) && Runs(m, t) && p == Target(hash, m, t, m.threads[t].pc)
    requires m.threads[t].Adder? ==>
               var th := m.threads[t];
               r == m.(bits := m.bits[p := true],
                       threads := m.threads[t := Adder(th.item, th.pc + 1, th.added || !m.bits[p])])
    requires m.threads[t].Reader? ==>
               var th := m.threads[t];
               r == m.(threads := m.threads[t := Reader(th.item, th.pc + 1, m.bits[p])])
    ensures r == Step(hash, m, t)
  {
  }

  lemma StepRefines<T>(hash: Hash<T>, s: System<T>, t: nat)
    requires WellPacked(s.filter)
    ensures Abstract(AtomicStep(hash, s, t)) == Step(hash, Abstract(s), t)
  {
    if t < |s.threads| && !Finished(s.filter.keys, s.threads[t]) {
      var th := s.threads[t];
      AtomicOps(hash, s.filter, th.item, th.pc);
      var p := Position(hash, s.filter.keys, s.filter.numBits, th.item, th.pc);
      StepIs(hash, Abstract(s), t, p, Abstract(AtomicStep(hash, s, t)));
    }
  }

  /** Refinement: any run of atomic word operations is the run of the same schedule on bits. */
  lemma {:induction false} RunRefines<T>(hash: Hash<T>, s: System<T>, schedule: seq<nat>)
    requires WellPacked(s.filter)
    ensures Abstract(AtomicRun(hash, s, schedule)) == Run(hash, Abstract(s), schedule)
    decreases |schedule|
  {
    if schedule != [] {
      StepRefines(hash, s, schedule[0]);
      RunRefines(hash, AtomicStep(hash, s, schedule[0]), schedule[1..]);
    }
  }

  ghost predicate AllReturned<T>(s: System<T>)
    requires WellPacked(s.filter)
  {
    Complete(Abstract(s))
  }

  /** Any two schedules that let all calls return leave the very same words. */
  lemma EveryScheduleEndsInTheSameWords<T>(
    hash: Hash<T>, s: System<T>, schedule: seq<nat>, other: seq<nat>)
    requires WellPacked(s.filter)
    requires AllReturned(AtomicRun(hash, s, schedule)) && AllReturned(AtomicRun(hash, s, other))
    ensures AtomicRun(hash, s, schedule).filter == AtomicRun(hash, s, other).filter
  {
    RunRefines(hash, s, schedule);
    RunRefines(hash, s, other);
    CompleteRunSetsDestined(hash, Abstract(s), schedule);
    CompleteRunSetsDestined(hash, Abstract(s), other);
    var a, b := AtomicRun(hash, s, schedule).filter.words, AtomicRun(hash, s, other).filter.words;
    assert Unpack(a) == Run(hash, Abstract(s), schedule).bits == Run(hash, Abstract(s), other).bits == Unpack(b);
    UnpackInjective(a, b);
  }

  /**
   * Concurrent calls refine sequential ones: whatever the schedule and whatever is asked meanwhile,
   * the filter ends with the bits of the items added one after the other, and the padding is as it was.
   */
  lemma ConcurrentCallsRefineSequential<T>(
    hash: Hash<T>, f: Packed, items: seq<T>, queries: seq<T>, schedule: seq<nat>)
    requires WellPacked(f)
    requires AllReturned(AtomicRun(hash, System(f, Calls(items, queries)), schedule))
    ensures var r := AtomicRun(hash, System(f, Calls(items, queries)), schedule).filter;
            && ToPlain(r).bits == WithItems(hash, f.keys, ToPlain(f).bits, items)
            && (PaddingClear(r) <==> PaddingClear(f))
  {
    var s := System(f, Calls(items, queries));
    RunRefines(hash, s, schedule);
    BatchBits(hash, Abstract(s), items, queries, schedule);
    SamePadding(f, AtomicRun(hash, s, schedule).filter);
  }

  /**
   * A plain filter that is shared, added to and converted back has the bits of the plain filter with
   * those items added, the padding is still clear, and so the count recomputed from whole words is exact.
   */
  lemma ConcurrentAddsRefineSequential<T>(
    hash: Hash<T>, b: Plain, items: seq<T>, queries: seq<T>, schedule: seq<nat>)
    requires Sane(b.keys, |b.bits|)
    requires AllReturned(AtomicRun(hash, System(ToPacked(b), Calls(items, queries)), schedule))
    ensures var r := AtomicRun(hash, System(ToPacked(b), Calls(items, queries)), schedule).filter;
            && PaddingClear(r)
            && ToPlain(r).keys == b.keys
            && ToPlain(r).bits == WithItems(hash, b.keys, b.bits, items)
            && ToPlain(r).numBitsSet == CountTrue(ToPlain(r).bits)
  {
    ToPackedKeepsBits(b);
    ConcurrentCallsRefineSequential(hash, ToPacked(b), items, queries, schedule);
    CountIsExactIffPaddingClear(AtomicRun(hash, System(ToPacked(b), Calls(items, queries)), schedule).filter);
  }

  lemma BatchBits<T>(
    hash: Hash<T>, m: Machine<T>, items: seq<T>, queries: seq<T>, schedule: seq<nat>)
    requires Valid(m) && m.threads == Calls(items, queries) && Complete(Run(hash, m, schedule))
    ensures var r := Run(hash, m, schedule).bits;
            && r[..m.numBits] == WithItems(hash, m.keys, m.bits[..m.numBits], items)
            && r[m.numBits..] == m.bits[m.numBits..]
  {
    CompleteRunSetsDestined(hash, m, schedule);
    forall p | 0 <= p < |m.bits|
      ensures Run(hash, m, schedule).bits[p] <==> m.bits[p] || Covered(hash, m.keys, m.numBits, items, p)
    {
      PendingAtStart(hash, m, items, queries, p);
    }
  }

  /** Adds that begin together, with nothing else running. */
  function Start<T>(f: Packed, items: seq<T>): System<T>
  {
    System(f, Adders(items))
  }

  /** The operations that saw their bit clear are as many as the ones gained by the words. */
  lemma ClearSeenIsPopulationGrowth<T>(hash: Hash<T>, s: System<T>, schedule: seq<nat>)
    requires WellPacked(s.filter)
    ensures SumOnes(AtomicRun(hash, s, schedule).filter.words)
         == SumOnes(s.filter.words) + ClearSeen(hash, Abstract(s), schedule)
  {
    RunRefines(hash, s, schedule);
    GrowthIsClearSeen(hash, Abstract(s), schedule);
    SumOnesIsCountTrue(s.filter.words);
    SumOnesIsCountTrue(AtomicRun(hash, s, schedule).filter.words);
  }

  /**
   * Adds and queries that begin together: the adds that return true are no more than the bits gained,
   * and some add returns true exactly when the words changed at all.
   */
  lemma AddsReportChange<T>(
    hash: Hash<T>, f: Packed, items: seq<T>, queries: seq<T>, schedule: seq<nat>)
    requires WellPacked(f)
    ensures var r := AtomicRun(hash, System(f, Calls(items, queries)), schedule);
            && SumOnes(f.words) + CountReports(r.threads) <= SumOnes(r.filter.words)
            && (r.filter.words != f.words <==> exists t :: 0 <= t < |r.threads| && Reports(r.threads[t]))
  {
    var s := System(f, Calls(items, queries));
    var r := AtomicRun(hash, s, schedule);
    RunRefines(hash, s, schedule);
    ReportsBoundedByGrowth(hash, Abstract(s), schedule);
    NoReports(s.threads);
    NoReports(r.threads);
    SumOnesIsCountTrue(f.words);
    SumOnesIsCountTrue(r.filter.words);
    if CountReports(r.threads) == 0 {
      UnpackInjective(f.words, r.filter.words);
    }
  }

  /** Some step of thread t in the run changes a word. */
  ghost predicate ChangesWords<T>(hash: Hash<T>, s: System<T>, schedule: seq<nat>, t: nat)
    requires WellPacked(s.filter)
    decreases |schedule|
  {
    schedule != [] &&
    var s' := AtomicStep(hash, s, schedule[0]);
    (schedule[0] == t && s'.filter.words != s.filter.words) || ChangesWords(hash, s', schedule[1..], t)
  }

  lemma {:induction false} SameChanges<T>(hash: Hash<T>, s: System<T>, schedule: seq<nat>, t: nat)
    requires WellPacked(s.filter)
    ensures ChangesWords(hash, s, schedule, t) <==> ChangesBits(hash, Abstract(s), schedule, t)
    decreases |schedule|
  {
    if schedule != [] {
      var s' := AtomicStep(hash, s, schedule[0]);
      StepRefines(hash, s, schedule[0]);
      SameLength(s, s');
      if Unpack(s.filter.words) == Unpack(s'.filter.words) { UnpackInjective(s.filter.words, s'.filter.words); }
      SameChanges(hash, s', schedule[1..], t);
    }
  }

  lemma SameLength<T>(s: System<T>, r: System<T>)
    requires WellPacked(s.filter) && WellPacked(r.filter) && s.filter.numBits == r.filter.numBits
    ensures |s.filter.words| == |r.filter.words|
  {
  }

  /** Whatever else is running, an add comes to return true exactly when one of its own steps changed the words. */
  lemma AddReportsItsOwnChange<T>(hash: Hash<T>, s: System<T>, schedule: seq<nat>, t: nat, x: T)
    requires WellPacked(s.filter) && t < |s.threads| && s.threads[t] == Adder(x, 0, false)
    ensures Reports(AtomicRun(hash, s, schedule).threads[t]) <==> ChangesWords(hash, s, schedule, t)
  {
    RunRefines(hash, s, schedule);
    SameChanges(hash, s, schedule, t);
    ReportsIffChanges(hash, Abstract(s), schedule, t);
  }

  /** Call t has returned; others may still be running. */
  predicate Returned<T>(s: System<T>, t: nat)
  {
    t < |s.threads| && Finished(s.filter.keys, s.threads[t])
  }

  /**
   * A `contains` that overlaps any other calls, at the moment it returns: all bits set when it began
   * forces true, and a true answer means all bits are set by now.
   */
  lemma ContainsIsBracketed<T>(hash: Hash<T>, s: System<T>, schedule: seq<nat>, t: nat, x: T)
    requires WellPacked(s.filter) && t < |s.threads| && s.threads[t] == Reader(x, 0, true)
    requires Returned(AtomicRun(hash, s, schedule), t)
    ensures var r := AtomicRun(hash, s, schedule);
            && r.threads[t].Reader?
            && (AllSet(hash, Abstract(s), x) ==> r.threads[t].found)
            && (r.threads[t].found ==> AllSet(hash, Abstract(r), x))
  {
    RunRefines(hash, s, schedule);
    RunKeepsLearnt(hash, Abstract(s), Abstract(s), schedule, t);
  }

  /**
   * An `add` that overlaps any other calls, at the moment it returns: its bits are all set, and it
   * returns true only if one of them was clear when it began.
   */
  lemma AddIsBracketed<T>(hash: Hash<T>, s: System<T>, schedule: seq<nat>, t: nat, x: T)
    requires WellPacked(s.filter) && t < |s.threads| && s.threads[t] == Adder(x, 0, false)
    requires Returned(AtomicRun(hash, s, schedule), t)
    ensures var r := AtomicRun(hash, s, schedule);
            && r.threads[t].Adder?
            && AllSet(hash, Abstract(r), x)
            && (r.threads[t].added ==> !AllSet(hash, Abstract(s), x))
  {
    RunRefines(hash, s, schedule);
    RunKeepsLearnt(hash, Abstract(s), Abstract(s), schedule, t);
  }

  lemma HoldsIsAllSet<T>(hash: Hash<T>, s: System<T>, x: T)
    requires WellPacked(s.filter)
    ensures Holds(hash, s.filter.keys, ToPlain(s.filter).bits, x) <==> AllSet(hash, Abstract(s), x)
  {
    var f := s.filter;
    assert forall p :: 0 <= p < f.numBits ==> ToPlain(f).bits[p] == Unpack(f.words)[p];
  }

  // ---------------------------------------------------------------- "true if the item was missing"

  /** Once call t has returned, it said whether the item was missing when it began. */
  ghost predicate TellsTheTruth<T>(hash: Hash<T>, s: System<T>, schedule: seq<nat>, t: nat, x: T)
    requires WellPacked(s.filter) && t < |s.threads|
  {
    var r := AtomicRun(hash, s, schedule);
    Returned(r, t) ==> (Reports(r.threads[t]) <==> !Holds(hash, s.filter.keys, ToPlain(s.filter).bits, x))
  }

  /**
   * An add tells under every schedule whether the item was missing when it began, exactly when the
   * item was there already or some clear bit of it is one that no other running add is going to set.
   */
  lemma AddTellsTheTruthIff<T>(hash: Hash<T>, s: System<T>, t: nat, x: T)
    requires WellPacked(s.filter) && t < |s.threads| && s.threads[t] == Adder(x, 0, false)
    ensures (forall schedule :: TellsTheTruth(hash, s, schedule, t, x))
       <==> || Holds(hash, s.filter.keys, ToPlain(s.filter).bits, x)
            || exists p :: OwnClear(hash, Abstract(s), t, x, p)
  {
    HoldsIsAllSet(hash, s, x);
    KeepsItsWordIffPresentOrOwnClear(hash, Abstract(s), t, x);
    forall schedule
      ensures TellsTheTruth(hash, s, schedule, t, x) <==> KeepsItsWord(hash, Abstract(s), schedule, t, x)
    {
      RunRefines(hash, s, schedule);
    }
  }

  /** Call t has returned, and its answer as an add is false. */
  ghost predicate AnswersFalse<T>(hash: Hash<T>, s: System<T>, schedule: seq<nat>, t: nat)
    requires WellPacked(s.filter)
  {
    var r := AtomicRun(hash, s, schedule);
    Returned(r, t) && !Reports(r.threads[t])
  }

  /** Of two overlapping adds of one item, the second can be overtaken so that it returns false. */
  lemma OvertakenAdd<T>(hash: Hash<T>, f: Packed, x: T)
    requires WellPacked(f)
    ensures exists schedule :: AnswersFalse(hash, Start(f, [x, x]), schedule, 1)
  {
    var s := Start(f, [x, x]);
    forall p | p in ClearBits(hash, Abstract(s), x)
      ensures PendingElsewhere(hash, Abstract(s), 1, p)
    {
      var k :| 0 <= k < |f.keys| && Position(hash, f.keys, f.numBits, x, k) == p;
      assert Todo(Abstract(s), 0, k) && Target(hash, Abstract(s), 0, k) == p;
    }
    var schedule := CanReturnFalse(hash, Abstract(s), 1, x);
    RunRefines(hash, s, schedule);
    assert AnswersFalse(hash, s, schedule, 1);
  }

  const KEY_AS_HASH: Hash<int> := (_: int, key: u64) => key

  /** For instance on a new filter of one bit: the item was missing when both adds began, and one returns false. */
  lemma MissingItemAnsweredFalse()
    ensures var f := ToPacked(Plain([0], Zeros(1), 0));
            && !Holds(KEY_AS_HASH, f.keys, ToPlain(f).bits, 7)
            && exists schedule :: !TellsTheTruth(KEY_AS_HASH, Start(f, [7, 7]), schedule, 1, 7)
  {
    var b := Plain([0], Zeros(1), 0);
    var f := ToPacked(b);
    ToPackedKeepsBits(b);
    assert ToPlain(f).bits == b.bits && !b.bits[Position(KEY_AS_HASH, [0], 1, 7, 0)];
    OvertakenAdd(KEY_AS_HASH, f, 7);
    var schedule :| AnswersFalse(KEY_AS_HASH, Start(f, [7, 7]), schedule, 1);
    assert !TellsTheTruth(KEY_AS_HASH, Start(f, [7, 7]), schedule, 1, 7);
  }

  // ---------------------------------------------------------------- when all adds return true

  /** Overlapping adds of the items all return true. */
  ghost predicate AllAddsReturnTrue<T>(hash: Hash<T>, f: Packed, items: seq<T>, schedule: seq<nat>)
    requires WellPacked(f)
  {
    var r := AtomicRun(hash, Start(f, items), schedule);
    AllReturned(r) && AllReport(r.threads)
  }

  lemma SameAnswers<T>(hash: Hash<T>, f: Packed, items: seq<T>, schedule: seq<nat>)
    requires WellPacked(f)
    ensures AllAddsReturnTrue(hash, f, items, schedule) <==> AllReturnTrue(hash, Abstract(Start(f, items)), schedule)
  {
    RunRefines(hash, Start(f, items), schedule);
  }

  /** A key for each item, so that the keys address different bits, all clear. */
  ghost predicate ClearChoice<T>(hash: Hash<T>, b: Plain, items: seq<T>, ks: seq<nat>)
    requires Sane(b.keys, |b.bits|)
  {
    && |ks| == |items|
    && (forall i :: 0 <= i < |ks| ==> ks[i] < |b.keys| && !b.bits[Position(hash, b.keys, |b.bits|, items[i], ks[i])])
    && (forall i, j :: 0 <= i < j < |ks| ==>
          Position(hash, b.keys, |b.bits|, items[i], ks[i]) != Position(hash, b.keys, |b.bits|, items[j], ks[j]))
  }

  lemma {:induction false} ChoiceFromMap<T>(
    hash: Hash<T>, f: Packed, items: seq<T>, c: map<nat, nat>) returns (ks: seq<nat>)
    requires WellPacked(f)
    requires Distinct(hash, Abstract(Start(f, items)), c) && Covers(c, |items|)
    ensures ClearChoice(hash, ToPlain(f), items, ks)
  {
    var m := Abstract(Start(f, items));
    ks := seq(|items|, i requires 0 <= i < |items| => c[i]);
    forall i | 0 <= i < |items|
      ensures Wanted(hash, m)[i][c[i]] == Position(hash, f.keys, f.numBits, items[i], ks[i])
    {
      assert m.threads[i].item == items[i];
    }
  }

  lemma ChoiceToMap<T>(
    hash: Hash<T>, f: Packed, items: seq<T>, ks: seq<nat>) returns (c: map<nat, nat>)
    requires WellPacked(f) && ClearChoice(hash, ToPlain(f), items, ks)
    ensures Distinct(hash, Abstract(Start(f, items)), c) && Covers(c, |items|)
  {
    var m := Abstract(Start(f, items));
    c := map i | 0 <= i < |items| :: ks[i];
    forall i | 0 <= i < |items|
      ensures Wanted(hash, m)[i][c[i]] == Position(hash, f.keys, f.numBits, items[i], ks[i])
      ensures Wanted(hash, m)[i][c[i]] in Clear(m)
    {
      assert m.threads[i].item == items[i];
    }
  }

  /**
   * Overlapping adds of any items can all return true exactly when a clear bit of each item can be
   * chosen so that the chosen bits are all different.
   */
  lemma AllAddsReturnTrueIffDistinctClear<T>(hash: Hash<T>, f: Packed, items: seq<T>)
    requires WellPacked(f)
    ensures (exists schedule :: AllAddsReturnTrue(hash, f, items, schedule))
       <==> (exists ks :: ClearChoice(hash, ToPlain(f), items, ks))
  {
    var m := Abstract(Start(f, items));
    AllReturnTrueIffDistinctClear(hash, m, items);
    forall schedule
      ensures AllAddsReturnTrue(hash, f, items, schedule) <==> AllReturnTrue(hash, m, schedule)
    {
      SameAnswers(hash, f, items, schedule);
    }
    if CanChoose(hash, m) {
      var c :| Distinct(hash, m, c) && Covers(c, |m.threads|);
      var ks := ChoiceFromMap(hash, f, items, c);
    }
    if exists ks :: ClearChoice(hash, ToPlain(f), items, ks) {
      var ks :| ClearChoice(hash, ToPlain(f), items, ks);
      var c := ChoiceToMap(hash, f, items, ks);
    }
  }

  /** The different positions of x whose bits are clear. */
  ghost function ClearPositions<T>(hash: Hash<T>, b: Plain, x: T): set<nat>
    requires Sane(b.keys, |b.bits|)
  {
    set p | 0 <= p < |b.bits| && !b.bits[p] && IsPosition(hash, b.keys, |b.bits|, x, p)
  }

  /**
   * A true answer does not single out one of several overlapping adds of an item: n of them can all
   * return true, exactly when n different bits of it are clear.
   */
  lemma AllAddsReturnTrueIffEnoughClear<T>(hash: Hash<T>, f: Packed, x: T, n: nat)
    requires WellPacked(f)
    ensures (exists schedule :: AllAddsReturnTrue(hash, f, Copies(x, n), schedule))
       <==> n <= |ClearPositions(hash, ToPlain(f), x)|
  {
    var m := Abstract(Start(f, Copies(x, n)));
    AllReturnTrueIffEnoughClear(hash, m, x, n);
    forall schedule
      ensures AllAddsReturnTrue(hash, f, Copies(x, n), schedule) <==> AllReturnTrue(hash, m, schedule)
    {
      SameAnswers(hash, f, Copies(x, n), schedule);
    }
    assert ClearBits(hash, m, x) == ClearPositions(hash, ToPlain(f), x);
  }

  lemma TwoElements(s: set<nat>, p: nat, q: nat)
    requires p in s && q in s && p != q
    ensures 2 <= |s|
  {
    SubsetSize({p, q}, s);
  }

  lemma NewFilterIsClear<T>(hash: Hash<T>, b: Plain, x: T, p: nat)
    requires Sane(b.keys, |b.bits|) && b.bits == Zeros(|b.bits|) && IsPosition(hash, b.keys, |b.bits|, x, p)
    ensures p in ClearPositions(hash, ToPlain(ToPacked(b)), x)
  {
    ToPackedKeepsBits(b);
  }

  /** On a new filter, two overlapping adds of an item with two different positions can both return true. */
  lemma TwoAddsToANewFilter<T>(hash: Hash<T>, numBits: nat, keys: seq<u64>, x: T, p: nat, q: nat)
    requires Sane(keys, numBits) && p != q
    requires IsPosition(hash, keys, numBits, x, p) && IsPosition(hash, keys, numBits, x, q)
    ensures exists schedule :: AllAddsReturnTrue(hash, ToPacked(Plain(keys, Zeros(numBits), 0)), Copies(x, 2), schedule)
  {
    var b := Plain(keys, Zeros(numBits), 0);
    NewFilterIsClear(hash, b, x, p);
    NewFilterIsClear(hash, b, x, q);
    TwoElements(ClearPositions(hash, ToPlain(ToPacked(b)), x), p, q);
    AllAddsReturnTrueIffEnoughClear(hash, ToPacked(b), x, 2);
  }

  /** For instance: two bits, two keys, and a hash that is the key itself. */
  lemma TwoAddsOfSeven()
    ensures exists schedule ::
              AllAddsReturnTrue(KEY_AS_HASH, ToPacked(Plain([0, 1], Zeros(2), 0)), Copies(7, 2), schedule)
  {
    assert Position(KEY_AS_HASH, [0, 1], 2, 7, 0) == 0 && Position(KEY_AS_HASH, [0, 1], 2, 7, 1) == 1;
    TwoAddsToANewFilter(KEY_AS_HASH, 2, [0, 1], 7, 0, 1);
  }

  // ---------------------------------------------------------------- one add on its own

  lemma {:induction false} AtomicRunSnoc<T>(hash: Hash<T>, s: System<T>, t: nat, n: nat)
    requires WellPacked(s.filter)
    ensures AtomicRun(hash, s, Turns(t, n + 1)) == AtomicStep(hash, AtomicRun(hash, s, Turns(t, n)), t)
    decreases n
  {
    if n == 0 {
      assert Turns(t, 1)[1..] == [];
    } else {
      assert Turns(t, n + 1)[1..] == Turns(t, n) && Turns(t, n)[1..] == Turns(t, n - 1);
      AtomicRunSnoc(hash, AtomicStep(hash, s, t), t, n - 1);
    }
  }

  /** One more turn of an add that runs alone. */
  lemma {:induction false} AddTurn<T>(hash: Hash<T>, start: System<T>, f: Packed, x: T, k: nat, added: bool)
    requires WellPacked(start.filter) && WellPacked(f) && k < |f.keys|
    requires AtomicRun(hash, start, Turns(0, k)) == System(f, [Adder(x, k, added)])
    ensures AtomicRun(hash, start, Turns(0, k + 1))
         == System(FetchOr(hash, f, x, k), [Adder(x, k + 1, added || !LoadsSet(hash, f, x, k))])
  {
    AtomicRunSnoc(hash, start, 0, k);
  }

  /**
   * From f to g by an add of x with no other thread running: the result says exactly whether x
   * was missing just before; its bits are set and no others, padding included.
   */
  ghost predicate AddsAlone<T>(hash: Hash<T>, f: Packed, x: T, g: Packed, added: bool)
    requires WellPacked(f)
  {
    && WellPacked(g) && g.keys == f.keys && g.numBits == f.numBits
    && (added <==> !Holds(hash, f.keys, ToPlain(f).bits, x))
    && ToPlain(g).bits == WithItems(hash, f.keys, ToPlain(f).bits, [x])
    && (PaddingClear(g) <==> PaddingClear(f))
  }

  lemma UndisturbedAdd<T>(hash: Hash<T>, f: Packed, x: T)
    requires WellPacked(f)
    ensures var r := AtomicRun(hash, Start(f, [x]), Turns(0, |f.keys|));
            r.threads[0].Adder? && AddsAlone(hash, f, x, r.filter, r.threads[0].added)
  {
    var s, n := Start(f, [x]), |f.keys|;
    RunRefines(hash, s, Turns(0, n));
    SoloRun(hash, Abstract(s), 0, n);
    UndisturbedBits(hash, Abstract(s), x, Abstract(AtomicRun(hash, s, Turns(0, n))));
    SamePadding(f, AtomicRun(hash, s, Turns(0, n)).filter);
  }

  lemma SamePadding(f: Packed, g: Packed)
    requires WellPacked(f) && WellPacked(g) && f.numBits == g.numBits
    requires Unpack(f.words)[f.numBits..] == Unpack(g.words)[g.numBits..]
    ensures PaddingClear(f) <==> PaddingClear(g)
  {
    SameTail(Unpack(f.words), Unpack(g.words), f.numBits);
  }

  lemma SameTail(a: seq<bool>, b: seq<bool>, n: nat)
    requires |a| == |b| && n <= |a| && a[n..] == b[n..]
    ensures forall p :: n <= p < |a| ==> a[p] == b[p]
  {
    assert forall p :: n <= p < |a| ==> a[p] == a[n..][p - n] && b[p] == b[n..][p - n];
  }

  lemma UndisturbedBits<T>(hash: Hash<T>, m: Machine<T>, x: T, r: Machine<T>)
    requires Valid(m) && m.threads == Adders([x]) && Solo(hash, m, 0, |m.keys|, r)
    ensures r.threads == [Adder(x, |m.keys|, !Holds(hash, m.keys, m.bits[..m.numBits], x))]
    ensures r.bits[..m.numBits] == WithItems(hash, m.keys, m.bits[..m.numBits], [x])
    ensures r.bits[m.numBits..] == m.bits[m.numBits..]
  {
    forall p | 0 <= p < |m.bits|
      ensures r.bits[p] <==> m.bits[p] || Covered(hash, m.keys, m.numBits, [x], p)
    {
      if IsPosition(hash, m.keys, m.numBits, x, p) {
        assert IsPosition(hash, m.keys, m.numBits, [x][0], p);
      }
    }
    assert MeetsClear(hash, m, x, 0, |m.keys|) <==> !Holds(hash, m.keys, m.bits[..m.numBits], x);
  }
}
