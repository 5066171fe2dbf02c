/**
 * The slot history the fast path of block production reads: a ring of one bit per slot, which
 * must go on answering for a moving window of slots while old answers are overwritten.
 */
module SlotHistory {
  import opened Prelude
  import opened BlockProduction

  const MAX_ENTRIES: nat := 1024 * 1024

  datatype Check = Future | TooOld | Found | NotFound

  datatype History = History(bits: seq<bool>, nextSlot: nat) {
    predicate Sized()
    {
      |bits| == MAX_ENTRIES && nextSlot > 0
    }

    function Oldest(): nat
    {
      if nextSlot < MAX_ENTRIES then 0 else nextSlot - MAX_ENTRIES
    }

    function Newest(): nat
      requires Sized()
    {
      nextSlot - 1
    }

    function Check(slot: nat): Check
      requires Sized()
    {
      if slot > Newest() then Future
      else if slot < Oldest() then TooOld
      else if bits[Cell(slot)] then Found
      else NotFound
    }
  }

  /** Where the ring keeps a slot. */
  function Cell(slot: nat): (c: nat)
    ensures c < MAX_ENTRIES
  {
    slot % MAX_ENTRIES
  }

  function Default(): (h: History)
    ensures h.Sized()
  {
    History(seq(MAX_ENTRIES, i => i == 0), 1)
  }

  /** The ring after adding a slot: the slots passed over are cleared, the slot itself is set. */
  ghost function Added(h: History, slot: nat): (r: History)
    requires h.Sized()
    ensures r.Sized()
  {
    History(seq(MAX_ENTRIES, i requires 0 <= i < MAX_ENTRIES =>
              i == Cell(slot) || (h.bits[i] && !PassedOver(h.nextSlot, slot, i))),
            slot + 1)
  }

  /** Some slot from `next` up to but not including `slot` lives in cell i. */
  ghost predicate PassedOver(next: nat, slot: nat, i: nat)
  {
    exists s :: next <= s < slot && Cell(s) == i
  }

  /** A gap as long as the ring passes over every cell. */
  lemma LongGapPassesOverAll(next: nat, slot: nat, i: nat)
    requires slot >= next + MAX_ENTRIES && i < MAX_ENTRIES
    ensures PassedOver(next, slot, i)
  {
    var c := Cell(next);
    var s := if i >= c then next + (i - c) else next + (i + MAX_ENTRIES - c);
    assert Cell(s) == i;
  }

  class Recorder {
    var bits: seq<bool>
    var nextSlot: nat

    ghost function Value(): History
      reads this
    {
      History(bits, nextSlot)
    }

    /** After a gap longer than the ring, clearing everything does what clearing slot by slot would. */
    method Add(slot: nat)
      requires Value().Sized()
      modifies this
      ensures Value() == Added(old(Value()), slot)
    {
      if slot > nextSlot && slot - nextSlot >= MAX_ENTRIES {
        forall i | 0 <= i < MAX_ENTRIES
          ensures PassedOver(nextSlot, slot, i)
        {
          LongGapPassesOverAll(nextSlot, slot, i);
        }
        bits := seq(MAX_ENTRIES, _ => false);
      } else {
        var skipped := nextSlot;
        while skipped < slot
          invariant nextSlot <= skipped <= slot || slot < nextSlot == skipped
          invariant nextSlot == old(nextSlot) && |bits| == MAX_ENTRIES
          invariant forall i :: 0 <= i < MAX_ENTRIES ==>
                      (bits[i] <==> old(bits)[i] && !PassedOver(nextSlot, skipped, i))
        {
          forall i | 0 <= i < MAX_ENTRIES
            ensures PassedOver(nextSlot, skipped + 1, i) <==> PassedOver(nextSlot, skipped, i) || i == Cell(skipped)
          {
            assert Cell(skipped) == Cell(skipped);
          }
          bits := bits[Cell(skipped) := false];
          skipped := skipped + 1;
        }
      }
      bits := bits[Cell(slot) := true];
      nextSlot := slot + 1;
    }
  }

  // ---------------------------------------------------------------- whole runs

  /** The highest slot added so far; slot 0 is there from the start. */
  function High(slots: seq<nat>): nat
  {
    if slots == [] then 0 else Max(High(slots[..|slots| - 1]), slots[|slots| - 1])
  }

  function SlotsBefore(kept: set<nat>, slot: nat): set<nat>
  {
    set s | s in kept && s < slot
  }

  /** The slots on record: adding a slot below the newest one takes back everything from there on. */
  ghost function Kept(slots: seq<nat>): set<nat>
  {
    if slots == [] then {0}
    else SlotsBefore(Kept(slots[..|slots| - 1]), slots[|slots| - 1]) + {slots[|slots| - 1]}
  }

  /**
   * The ring answers for every slot of its window whose cell has not been taken by a later slot:
   * set exactly for the slots on record.
   */
  ghost predicate Agrees(h: History, kept: set<nat>, high: nat)
    requires h.Sized()
  {
    && h.nextSlot <= high + 1
    && (forall s :: s in kept ==> s < h.nextSlot)
    && (forall s :: h.Oldest() <= s < h.nextSlot && high < s + MAX_ENTRIES ==> (h.bits[Cell(s)] <==> s in kept))
  }

  lemma CellsDiffer(s: nat, t: nat)
    requires s < t < s + MAX_ENTRIES
    ensures Cell(s) != Cell(t)
  {
  }

  lemma AddedKeepsAgreement(h: History, kept: set<nat>, high: nat, slot: nat)
    requires h.Sized() && Agrees(h, kept, high)
    ensures Agrees(Added(h, slot), SlotsBefore(kept, slot) + {slot}, Max(high, slot))
  {
    var r := Added(h, slot);
    forall s | r.Oldest() <= s < r.nextSlot && Max(high, slot) < s + MAX_ENTRIES
      ensures r.bits[Cell(s)] <==> s == slot || s in kept
    {
      if s != slot {
        CellsDiffer(s, slot);
        if s < h.nextSlot {
          forall t | h.nextSlot <= t < slot ensures Cell(t) != Cell(s) { CellsDiffer(s, t); }
        } else {
          assert PassedOver(h.nextSlot, slot, Cell(s));
        }
      }
    }
  }

  ghost function AfterAll(slots: seq<nat>): (h: History)
    ensures h.Sized()
  {
    if slots == [] then Default() else Added(AfterAll(slots[..|slots| - 1]), slots[|slots| - 1])
  }

  /**
   * However long the run, in whatever order the slots are added and however often the ring wraps:
   * the slots of the window whose cells were not taken over are answered correctly.
   */
  lemma {:induction false} EveryRunAgrees(slots: seq<nat>)
    ensures var h := AfterAll(slots);
            && Agrees(h, Kept(slots), High(slots))
            && (forall s: nat {:trigger h.Check(s)} ::
                  && (h.Check(s) == Future <==> s >= h.nextSlot)
                  && (h.Check(s) == TooOld <==> s + MAX_ENTRIES < h.nextSlot)
                  && (h.Check(s) == Found ==> h.bits[Cell(s)])
                  && (h.Check(s) == NotFound ==> !h.bits[Cell(s)]))
            && h.nextSlot == if slots == [] then 1 else slots[|slots| - 1] + 1
  {
    if slots != [] {
      var init, last := slots[..|slots| - 1], slots[|slots| - 1];
      EveryRunAgrees(init);
      AddedKeepsAgreement(AfterAll(init), Kept(init), High(init), last);
    }
  }

  /**
   * What the highest slot ever added and the next slot must be: never went back, went back before
   * anything above the first round of the ring was added, or went back to the very start.
   */
  predicate Safe(high: nat, next: nat)
  {
    high + 1 == next || (next <= MAX_ENTRIES && high <= MAX_ENTRIES) || next == 1
  }

  /** Slots are added in increasing order, each above the one before. */
  ghost predicate Increasing(slots: seq<nat>)
  {
    && (forall i :: 0 <= i < |slots| ==> slots[i] > 0)
    && (forall i, j :: 0 <= i < j < |slots| ==> slots[i] < slots[j])
  }

  lemma {:induction false} IncreasingHigh(slots: seq<nat>)
    requires Increasing(slots)
    ensures High(slots) == if slots == [] then 0 else slots[|slots| - 1]
  {
    if slots != [] {
      IncreasingHigh(slots[..|slots| - 1]);
      assert |slots| > 1 ==> slots[|slots| - 2] < slots[|slots| - 1];
    }
  }

  lemma {:induction false} IncreasingKept(slots: seq<nat>)
    requires Increasing(slots)
    ensures forall s :: s in Kept(slots) <==> s == 0 || s in slots
  {
    if slots != [] {
      var init, last := slots[..|slots| - 1], slots[|slots| - 1];
      IncreasingKept(init);
      assert forall s :: s in slots <==> s in init || s == last;
      assert forall s :: s in init ==> s < last;
    }
  }

  /** Slots added in increasing order, as banks add them, are all on record, and the end is safe. */
  lemma IncreasingKeepsAll(slots: seq<nat>)
    requires Increasing(slots)
    ensures (forall s :: s in Kept(slots) <==> s == 0 || s in slots)
    ensures Safe(High(slots), AfterAll(slots).nextSlot)
  {
    IncreasingKept(slots);
    IncreasingHigh(slots);
    EveryRunAgrees(slots);
  }

  /** Going back after the ring has wrapped: slot 1 was never added and is found. */
  lemma GoingBackFindsAStranger()
    ensures var slots := [MAX_ENTRIES + 1, 5]; 1 !in Kept(slots) && AfterAll(slots).Check(1) == Found
  {
    var slots := [MAX_ENTRIES + 1, 5];
    assert slots[..1] == [MAX_ENTRIES + 1] && slots[..1][..0] == [];
    var h := Added(Default(), MAX_ENTRIES + 1);
    assert AfterAll(slots[..1]) == h && h.bits[1];
    assert AfterAll(slots) == Added(h, 5);
    assert Kept(slots[..1]) <= {0, MAX_ENTRIES + 1};
  }

  // ---------------------------------------------------------------- when the whole window is right

  /** Every slot of the window is found exactly when it is on record. */
  ghost predicate WindowRight(slots: seq<nat>)
  {
    var h := AfterAll(slots);
    forall s :: h.Oldest() <= s < h.nextSlot ==> (h.Check(s) == Found <==> s in Kept(slots))
  }

  lemma {:induction false} KeptWereAdded(slots: seq<nat>)
    ensures 0 in Kept(slots) && forall s :: s in Kept(slots) ==> s == 0 || s in slots
  {
    if slots != [] {
      KeptWereAdded(slots[..|slots| - 1]);
      assert forall s :: s in slots[..|slots| - 1] ==> s in slots;
      assert slots[|slots| - 1] in slots;
    }
  }

  lemma SmallCell(slot: nat)
    requires slot < MAX_ENTRIES
    ensures Cell(slot) == slot
  {
  }

  lemma FirstRoundStepKeepsZero(h: History, slot: nat)
    requires h.Sized() && h.bits[0] && slot <= MAX_ENTRIES
    ensures Added(h, slot).bits[0]
  {
    forall t | h.nextSlot <= t < slot
      ensures Cell(t) != 0
    {
      SmallCell(t);
    }
  }

  /** In the first round of the ring nothing clears the cell of slot 0. */
  lemma {:induction false} FirstRoundKeepsZero(slots: seq<nat>)
    requires High(slots) <= MAX_ENTRIES
    ensures AfterAll(slots).bits[0]
  {
    if slots != [] {
      FirstRoundKeepsZero(slots[..|slots| - 1]);
      FirstRoundStepKeepsZero(AfterAll(slots[..|slots| - 1]), slots[|slots| - 1]);
    }
  }

  lemma SafeIsRight(slots: seq<nat>)
    requires Safe(High(slots), AfterAll(slots).nextSlot)
    ensures WindowRight(slots)
  {
    var h := AfterAll(slots);
    EveryRunAgrees(slots);
    KeptWereAdded(slots);
    if High(slots) <= MAX_ENTRIES { FirstRoundKeepsZero(slots); }
    forall s | h.Oldest() <= s < h.nextSlot
      ensures h.Check(s) == Found <==> s in Kept(slots)
    {
      assert s == 0 || High(slots) < s + MAX_ENTRIES;
      if h.nextSlot == 1 { assert h.bits[Cell(0)]; }
    }
  }

  lemma AfterOneMore(slots: seq<nat>, slot: nat)
    ensures AfterAll(slots + [slot]) == Added(AfterAll(slots), slot) && High(slots + [slot]) == Max(High(slots), slot)
  {
    assert (slots + [slot])[..|slots|] == slots;
  }

  /** Going back clears nothing. */
  lemma GoingBackKeepsBits(h: History, slot: nat, i: nat)
    requires h.Sized() && slot < h.nextSlot && i < MAX_ENTRIES
    ensures Added(h, slot).bits[i] <==> i == Cell(slot) || h.bits[i]
  {
  }

  lemma NextTakesOldestCell(next: nat)
    requires next > MAX_ENTRIES
    ensures Cell(next - MAX_ENTRIES) == Cell(next)
  {
  }

  /** Going back one slot within a later round of the ring: the oldest slot of the window looks rooted. */
  lemma BackOneSlot(high: nat, next: nat) returns (slots: seq<nat>)
    requires MAX_ENTRIES < next <= high
    ensures High(slots) == high && AfterAll(slots).nextSlot == next && !WindowRight(slots)
  {
    var two := [high] + [next];
    slots := two + [next - 1];
    AfterOneMore([], high);
    assert [] + [high] == [high];
    AfterOneMore([high], next);
    AfterOneMore(two, next - 1);
    StaleOldest(slots, AfterAll([high]), next);
  }

  lemma StaleOldest(slots: seq<nat>, before: History, next: nat)
    requires before.Sized() && next > MAX_ENTRIES && next - MAX_ENTRIES !in slots
    requires AfterAll(slots) == Added(Added(before, next), next - 1)
    ensures !WindowRight(slots)
  {
    var h, s := AfterAll(slots), next - MAX_ENTRIES;
    NextTakesOldestCell(next);
    GoingBackKeepsBits(Added(before, next), next - 1, Cell(s));
    KeptWereAdded(slots);
    assert h.Check(s) == Found && s !in Kept(slots);
  }

  /** Passing over the first slot of the second round clears the cell of slot 0. */
  lemma PassingClearsZero(h: History)
    requires h.Sized() && h.nextSlot == MAX_ENTRIES
    ensures !Added(h, MAX_ENTRIES + 1).bits[0]
  {
    assert Cell(MAX_ENTRIES) == 0 && Cell(MAX_ENTRIES + 1) == 1;
    assert PassedOver(MAX_ENTRIES, MAX_ENTRIES + 1, 0);
  }

  /** Going back into the first round of the ring, after the cell of slot 0 was passed over. */
  lemma BackToFirstRound(high: nat, next: nat) returns (slots: seq<nat>)
    requires 1 < next <= MAX_ENTRIES < high
    ensures High(slots) == high && AfterAll(slots).nextSlot == next && !WindowRight(slots)
  {
    var two := [high] + [MAX_ENTRIES - 1];
    var three := two + [MAX_ENTRIES + 1];
    slots := three + [next - 1];
    AfterOneMore([], high);
    assert [] + [high] == [high];
    AfterOneMore([high], MAX_ENTRIES - 1);
    AfterOneMore(two, MAX_ENTRIES + 1);
    AfterOneMore(three, next - 1);
    PassingClearsZero(AfterAll(two));
    LostZero(slots, AfterAll(three), next - 1);
  }

  lemma LostZero(slots: seq<nat>, before: History, slot: nat)
    requires before.Sized() && !before.bits[0] && 0 < slot < MAX_ENTRIES && slot < before.nextSlot
    requires AfterAll(slots) == Added(before, slot)
    ensures !WindowRight(slots)
  {
    SmallCell(slot);
    GoingBackKeepsBits(before, slot, 0);
    KeptWereAdded(slots);
    assert Cell(0) == 0;
    assert AfterAll(slots).Check(0) != Found && 0 in Kept(slots);
  }

  /** The run ends with that highest slot and that next slot. */
  ghost predicate Reaches(slots: seq<nat>, high: nat, next: nat)
  {
    High(slots) == high && AfterAll(slots).nextSlot == next
  }

  /** The whole window is right after every run that ends so, exactly when the end is safe. */
  lemma WindowRightIffSafe(high: nat, next: nat)
    requires 0 < next <= high + 1
    ensures (forall slots :: Reaches(slots, high, next) ==> WindowRight(slots)) <==> Safe(high, next)
  {
    if Safe(high, next) {
      forall slots | Reaches(slots, high, next)
        ensures WindowRight(slots)
      {
        SafeIsRight(slots);
      }
    } else if next > MAX_ENTRIES {
      var slots := BackOneSlot(high, next);
      assert Reaches(slots, high, next);
    } else {
      var slots := BackToFirstRound(high, next);
      assert Reaches(slots, high, next);
    }
  }

  /**
   * The report a complete history gives: one status per slot of the window, in order, with its
   * leader, skipped exactly when the slot is not on record; one entry per leader; sums that agree.
   */
  ghost predicate TellsHistory(r: Report, entries: seq<Assignment>, slots: seq<nat>, first: nat, start: nat, end: nat)
    requires first <= start <= end
  {
    && |r.status| == r.totalSlots == end - start + 1
    && (forall i :: 0 <= i < |r.status| ==>
          r.status[i] == SlotStatus(start + i, LeaderOf(entries, start - first + i), start + i !in Kept(slots)))
    && EntriesOf(r.status, r.leaders)
    && TotalLed(r.leaders) == r.totalSlots
    && TotalProduced(r.leaders) == r.totalBlocksProduced
    && TotalSkipped(r.leaders) == r.totalSlotsSkipped
  }

  /** Block production over a window the history covers. */
  method ReportFromHistory(
    entries: seq<Assignment>, ghost slots: seq<nat>, h: History, first: nat, start: nat, end: nat) returns (r: Outcome)
    requires h == AfterAll(slots) && (Safe(High(slots), h.nextSlot) || High(slots) < start + MAX_ENTRIES)
    requires first <= start <= end && h.Oldest() <= start && end <= h.Newest()
    ensures r.Done? && TellsHistory(r.report, entries, slots, first, start, end)
  {
    EveryRunAgrees(slots);
    var confirmed := FoundSlots((slot: nat) => h.Sized() && h.Check(slot) == Found, start, end);
    forall slot | start <= slot <= end
      ensures Seen(confirmed, slot) <==> slot in Kept(slots)
    {
      FoundIffKept(slots, h, slot);
    }
    r := ReportProduction(entries, first, start, end, confirmed);
  }

  lemma FoundIffKept(slots: seq<nat>, h: History, slot: nat)
    requires h == AfterAll(slots) && h.Oldest() <= slot <= h.Newest()
    requires Safe(High(slots), h.nextSlot) || High(slots) < slot + MAX_ENTRIES
    ensures h.Check(slot) == Found <==> slot in Kept(slots)
  {
    EveryRunAgrees(slots);
    if Safe(High(slots), h.nextSlot) { SafeIsRight(slots); }
  }

  /**
   * The whole command: choose the window, take the blocks from the history if it covers the window
   * and from the cluster otherwise, and report. `blocks` is the answer of the cluster for a window.
   */
  method ShowBlockProduction(
    entries: seq<Assignment>, epoch: nat, currentEpoch: nat, first: nat, last: nat, absoluteSlot: nat,
    slotLimit: Option<nat>, ghost slots: seq<nat>, h: History, minimumLedgerSlot: nat, blocks: (nat, nat) -> seq<nat>)
    returns (w: Window, r: Option<Outcome>)
    requires h == AfterAll(slots) && Safe(High(slots), h.nextSlot)
    requires epoch <= currentEpoch ==> first <= absoluteSlot && first <= last
    ensures w == ResolveWindow(
                   epoch, currentEpoch, first, last, absoluteSlot, slotLimit, h.Oldest(), h.Newest(), minimumLedgerSlot)
    ensures r.Some? <==> w.Window?
    ensures w.Window? && HistoryCovers(first, w.end, slotLimit, h.Oldest(), h.Newest()) ==>
              r.value.Done? && TellsHistory(r.value.report, entries, slots, first, w.start, w.end)
    ensures w.Window? && !HistoryCovers(first, w.end, slotLimit, h.Oldest(), h.Newest()) ==>
              var confirmed := blocks(w.start, w.end);
              && (r.value.TooManyBlocks? <==> |confirmed| > w.end - w.start + 1)
              && (r.value.Done? ==> Describes(r.value.report, entries, first, w.start, w.end, confirmed))
  {
    w := ResolveWindow(
      epoch, currentEpoch, first, last, absoluteSlot, slotLimit, h.Oldest(), h.Newest(), minimumLedgerSlot);
    if !w.Window? { return w, None; }
    var report;
    if w.fast {
      report := ReportFromHistory(entries, slots, h, first, w.start, w.end);
    } else {
      report := ReportProduction(entries, first, w.start, w.end, blocks(w.start, w.end));
    }
    return w, Some(report);
  }
}
