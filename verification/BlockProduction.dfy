/**
 * Slot accounting: who leads each slot of a window, which slots produced a block, and the
 * per-leader counts that must add up to the totals.
 */
module BlockProduction {
  import opened Prelude
  import opened MapSums

  type Leader = string

  /** One entry of a leader schedule: a leader and the slot indices assigned to it. */
  datatype Assignment = Assignment(leader: Leader, slots: seq<nat>)

  datatype SlotStatus = SlotStatus(slot: nat, leader: Leader, skipped: bool)

  const UNKNOWN: Leader := "?"

  // ---------------------------------------------------------------- the window

  /** Which slots to report on; `fast` when the slot history covers all of them. */
  datatype Window = Window(start: nat, end: nat, fast: bool) | EpochInFuture | LedgerUnavailable

  /** The history reaches up to the end, and back to the start of the epoch or as far as the limit asks. */
  predicate HistoryCovers(first: nat, end: nat, slotLimit: Option<nat>, oldest: nat, newest: nat)
  {
    end <= newest && (oldest <= first || (slotLimit.Some? && oldest + slotLimit.value <= end))
  }

  /**
   * The window of an epoch that has begun: the longest one that lies in the epoch, is not in the
   * future and respects the limit. The history serves it exactly when it covers it; otherwise it is
   * also cut at the oldest slot of the ledger, and unavailable exactly when nothing of it is left.
   */
  function ResolveWindow(
    epoch: nat, currentEpoch: nat, first: nat, last: nat, absoluteSlot: nat, slotLimit: Option<nat>,
    oldest: nat, newest: nat, minimumLedgerSlot: nat): (w: Window)
    requires epoch <= currentEpoch ==> first <= absoluteSlot && first <= last
    ensures w.EpochInFuture? <==> epoch > currentEpoch
    ensures var end := Min(absoluteSlot, last);
            w.LedgerUnavailable? <==>
              epoch <= currentEpoch && !HistoryCovers(first, end, slotLimit, oldest, newest) && minimumLedgerSlot > end
    ensures w.Window? ==>
              && first <= w.start <= w.end == Min(absoluteSlot, last)
              && (slotLimit.Some? ==> w.end - w.start <= slotLimit.value)
              && (w.fast <==> HistoryCovers(first, w.end, slotLimit, oldest, newest))
              && (if w.fast then oldest <= w.start && w.end <= newest else minimumLedgerSlot <= w.start)
              && (w.start == first || (slotLimit.Some? && w.end - w.start == slotLimit.value)
                  || (!w.fast && w.start == minimumLedgerSlot))
  {
    if epoch > currentEpoch then EpochInFuture
    else
      var end := Min(absoluteSlot, last);
      var start :=
        if slotLimit.Some? then Max(if end >= slotLimit.value then end - slotLimit.value else 0, first) else first;
      if start >= oldest && end <= newest then Window(start, end, true)
      else if minimumLedgerSlot > end then LedgerUnavailable
      else Window(Max(start, minimumLedgerSlot), end, false)
  }

  // ---------------------------------------------------------------- leader table

  /** The leader of a slot: the last entry, in iteration order, that claims it. */
  function LeaderOf(entries: seq<Assignment>, index: nat): Leader
  {
    if entries == [] then UNKNOWN
    else
      var last := entries[|entries| - 1];
      if index in last.slots then last.leader else LeaderOf(entries[..|entries| - 1], index)
  }

  /** Invert the schedule over the window of indices from `start` to `end`. */
  method LeaderTable(entries: seq<Assignment>, start: nat, end: nat) returns (table: seq<Leader>)
    requires start <= end
    ensures |table| == end - start + 1
    ensures forall i :: 0 <= i < |table| ==> table[i] == LeaderOf(entries, start + i)
  {
    table := seq(end - start + 1, _ => UNKNOWN);
    var e := 0;
    while e < |entries|
      invariant e <= |entries| && |table| == end - start + 1
      invariant forall i :: 0 <= i < |table| ==> table[i] == LeaderOf(entries[..e], start + i)
    {
      var leader, slots := entries[e].leader, entries[e].slots;
      ghost var before := table;
      var j := 0;
      while j < |slots|
        invariant j <= |slots| && |table| == |before|
        invariant forall i :: 0 <= i < |table| ==>
                    table[i] == if start + i in slots[..j] then leader else before[i]
      {
        if slots[j] >= start && slots[j] <= end {
          table := table[slots[j] - start := leader];
        }
        j := j + 1;
      }
      assert slots[..|slots|] == slots;
      assert entries[..e + 1][..e] == entries[..e];
      e := e + 1;
    }
    assert entries[..|entries|] == entries;
  }

  /** One entry of the schedule written into a table that grows as needed. */
  method AssignSlots(before: seq<Leader>, leader: Leader, slots: seq<nat>) returns (table: seq<Leader>)
    ensures |before| <= |table| && (|table| > |before| ==> |table| - 1 in slots)
    ensures forall index :: index in slots ==> index < |table|
    ensures forall i :: 0 <= i < |table| ==>
              table[i] == if i in slots then leader else if i < |before| then before[i] else UNKNOWN
  {
    table := before;
    var j := 0;
    while j < |slots|
      invariant j <= |slots| && |before| <= |table|
      invariant forall i :: 0 <= i < |table| ==>
                  table[i] == if i in slots[..j] then leader else if i < |before| then before[i] else UNKNOWN
      invariant forall index :: index in slots[..j] ==> index < |table|
      invariant |table| > |before| ==> |table| - 1 in slots[..j]
    {
      assert slots[..j + 1] == slots[..j] + [slots[j]];
      if slots[j] >= |table| {
        table := table + seq(slots[j] + 1 - |table|, _ => UNKNOWN);
      }
      table := table[slots[j] := leader];
      j := j + 1;
    }
    assert slots[..|slots|] == slots;
  }

  /** Invert a whole schedule; the table grows as far as the highest slot index that is assigned. */
  method InvertSchedule(entries: seq<Assignment>) returns (table: seq<Leader>)
    ensures Covers(entries, table)
  {
    table := [];
    var e := 0;
    while e < |entries|
      invariant e <= |entries| && Covers(entries[..e], table)
    {
      var after := AssignSlots(table, entries[e].leader, entries[e].slots);
      CoversOneMore(entries[..e], entries[e], table, after);
      assert entries[..e + 1] == entries[..e] + [entries[e]];
      table := after;
      e := e + 1;
    }
    assert entries[..|entries|] == entries;
  }

  /** The table ends at the highest slot index the entries claim and names the leader of each. */
  ghost predicate Covers(entries: seq<Assignment>, table: seq<Leader>)
  {
    && (forall i :: 0 <= i < |table| ==> table[i] == LeaderOf(entries, i))
    && (forall a, index :: a in entries && index in a.slots ==> index < |table|)
    && (table != [] ==> exists a :: a in entries && |table| - 1 in a.slots)
  }

  lemma CoversOneMore(
    entries: seq<Assignment>, last: Assignment, table: seq<Leader>, after: seq<Leader>)
    requires Covers(entries, table)
    requires |table| <= |after| && (|after| > |table| ==> |after| - 1 in last.slots)
    requires forall index :: index in last.slots ==> index < |after|
    requires forall i :: 0 <= i < |after| ==>
               after[i] == if i in last.slots then last.leader else if i < |table| then table[i] else UNKNOWN
    ensures Covers(entries + [last], after)
  {
    var all := entries + [last];
    UnclaimedIsUnknown(entries, |table|);
    assert all[..|all| - 1] == entries && all[|all| - 1] == last;
    assert forall a :: a in all <==> a in entries || a == last;
    if |after| == |table| && table != [] {
      var a :| a in entries && |table| - 1 in a.slots;
      assert a in all;
    }
    if |after| > |table| { assert last in all; }
  }

  /** No slot index of the window is claimed under two names. */
  ghost predicate OneLeaderPerSlot(entries: seq<Assignment>, start: nat, end: nat)
  {
    forall e, f, index :: e in entries && f in entries && start <= index <= end && index in e.slots && index in f.slots
      ==> e.leader == f.leader
  }

  ghost predicate SameTable(one: seq<Assignment>, two: seq<Assignment>, start: nat, end: nat)
  {
    forall index :: start <= index <= end ==> LeaderOf(one, index) == LeaderOf(two, index)
  }

  /** The answer comes from some entry that claims the slot, or no entry does. */
  lemma {:induction false} LeaderOfIsClaimed(entries: seq<Assignment>, index: nat)
    ensures (exists e :: e in entries && index in e.slots && LeaderOf(entries, index) == e.leader)
         || (LeaderOf(entries, index) == "?" && forall e :: e in entries ==> index !in e.slots)
  {
    if entries != [] {
      var init, last := entries[..|entries| - 1], entries[|entries| - 1];
      assert forall e :: e in entries <==> e in init || e == last;
      if index !in last.slots { LeaderOfIsClaimed(init, index); }
    }
  }

  lemma UnclaimedIsUnknown(entries: seq<Assignment>, bound: nat)
    requires forall e, index :: e in entries && index in e.slots ==> index < bound
    ensures forall index :: index >= bound ==> LeaderOf(entries, index) == UNKNOWN
  {
    forall index | index >= bound
      ensures LeaderOf(entries, index) == UNKNOWN
    {
      LeaderOfIsClaimed(entries, index);
    }
  }

  lemma OrderIrrelevant(one: seq<Assignment>, two: seq<Assignment>, start: nat, end: nat)
    requires multiset(one) == multiset(two) && OneLeaderPerSlot(one, start, end)
    ensures SameTable(one, two, start, end)
  {
    assert forall e :: e in one <==> e in multiset(one);
    assert forall e :: e in two <==> e in multiset(two);
    forall index | start <= index <= end
      ensures LeaderOf(one, index) == LeaderOf(two, index)
    {
      LeaderOfIsClaimed(one, index);
      LeaderOfIsClaimed(two, index);
    }
  }

  /** The same entries with entry i moved to the end. */
  function MoveLast(entries: seq<Assignment>, i: nat): (r: seq<Assignment>)
    requires i < |entries|
    ensures multiset(r) == multiset(entries)
  {
    assert entries == entries[..i] + [entries[i]] + entries[i + 1..];
    entries[..i] + entries[i + 1..] + [entries[i]]
  }

  /**
   * A schedule is a hash map, visited in any order. The table is the same for every order
   * exactly when no slot of the window is claimed under two names.
   */
  lemma TableIgnoresOrderIffOneLeaderPerSlot(entries: seq<Assignment>, start: nat, end: nat)
    ensures (forall other: seq<Assignment> ::
               multiset(other) == multiset(entries) ==> SameTable(entries, other, start, end))
       <==> OneLeaderPerSlot(entries, start, end)
  {
    if OneLeaderPerSlot(entries, start, end) {
      forall other: seq<Assignment> | multiset(other) == multiset(entries)
        ensures SameTable(entries, other, start, end)
      {
        OrderIrrelevant(entries, other, start, end);
      }
    } else {
      var e, f, index :| e in entries && f in entries && start <= index <= end
        && index in e.slots && index in f.slots && e.leader != f.leader;
      var a :| 0 <= a < |entries| && entries[a] == e;
      var b :| 0 <= b < |entries| && entries[b] == f;
      var one, two := MoveLast(entries, a), MoveLast(entries, b);
      assert LeaderOf(one, index) == entries[a].leader && LeaderOf(two, index) == entries[b].leader;
      assert !SameTable(entries, one, start, end) || !SameTable(entries, two, start, end);
    }
  }

  /** One slot claimed under two names: each order names another leader. */
  lemma OrderChangesTheTable(index: nat, a: Leader, b: Leader)
    requires a != b
    ensures var e, f := Assignment(a, [index]), Assignment(b, [index]);
            var one, two := [e, f], [f, e];
            && multiset(one) == multiset(two)
            && LeaderOf(one, index) == b && LeaderOf(two, index) == a
            && !SameTable(one, two, index, index)
  {
    var e, f := Assignment(a, [index]), Assignment(b, [index]);
    var one, two := [e, f], [f, e];
    assert LeaderOf(one, index) == b && LeaderOf(two, index) == a;
  }

  // ---------------------------------------------------------------- merging blocks with slots

  /**
   * The confirmed list shows a block for the slot where the merge can see it: nothing at or
   * above the slot comes earlier in the list.
   */
  ghost predicate Seen(confirmed: seq<nat>, slot: nat)
  {
    exists j :: 0 <= j < |confirmed| && confirmed[j] == slot && forall i :: 0 <= i < j ==> confirmed[i] < slot
  }

  ghost function SlotsOf(status: seq<SlotStatus>, leader: Leader): nat
  {
    if status == [] then 0
    else SlotsOf(status[..|status| - 1], leader) + (if status[|status| - 1].leader == leader then 1 else 0)
  }

  ghost function SkippedOf(status: seq<SlotStatus>, leader: Leader): nat
  {
    if status == [] then 0
    else
      var last := status[|status| - 1];
      SkippedOf(status[..|status| - 1], leader) + (if last.leader == leader && last.skipped then 1 else 0)
  }

  ghost function Skipped(status: seq<SlotStatus>): nat
  {
    if status == [] then 0
    else Skipped(status[..|status| - 1]) + (if status[|status| - 1].skipped then 1 else 0)
  }

  /** One counter per leader that led a slot: how many slots it led. */
  ghost predicate SlotsCounted(status: seq<SlotStatus>, slots: map<Leader, nat>)
  {
    && (forall leader :: leader in slots <==> SlotsOf(status, leader) > 0)
    && (forall leader :: Get(slots, leader) == SlotsOf(status, leader))
    && Sum(slots) == |status|
  }

  ghost predicate SkippedCounted(status: seq<SlotStatus>, skipped: map<Leader, nat>)
  {
    && (forall leader :: Get(skipped, leader) == SkippedOf(status, leader))
    && Sum(skipped) == Skipped(status)
  }

  /** The counters say of every leader how many slots it led and how many of them it skipped. */
  ghost predicate Counted(status: seq<SlotStatus>, slots: map<Leader, nat>, skipped: map<Leader, nat>)
  {
    slots.Keys == skipped.Keys && SlotsCounted(status, slots) && SkippedCounted(status, skipped)
  }

  /** One status per slot of the window, in order, skipped exactly when no block is seen for it. */
  ghost predicate StatusesOf(startSlot: nat, table: seq<Leader>, confirmed: seq<nat>, status: seq<SlotStatus>)
  {
    && |status| <= |table|
    && forall i :: 0 <= i < |status| ==>
         status[i] == SlotStatus(startSlot + i, table[i], !Seen(confirmed, startSlot + i))
  }

  lemma CountSlot(status: seq<SlotStatus>, slots: map<Leader, nat>, next: SlotStatus)
    requires SlotsCounted(status, slots)
    ensures SlotsCounted(status + [next], Bump(slots, next.leader, 1))
  {
    var after := status + [next];
    assert after[..|after| - 1] == status && after[|after| - 1] == next;
    SumBump(slots, next.leader, 1);
    forall leader
      ensures leader in Bump(slots, next.leader, 1) <==> SlotsOf(after, leader) > 0
      ensures Get(Bump(slots, next.leader, 1), leader) == SlotsOf(after, leader)
    {
      assert Get(slots, leader) == SlotsOf(status, leader);
    }
  }

  lemma CountSkipped(status: seq<SlotStatus>, skipped: map<Leader, nat>, next: SlotStatus, n: nat)
    requires SkippedCounted(status, skipped) && n == if next.skipped then 1 else 0
    ensures SkippedCounted(status + [next], Bump(skipped, next.leader, n))
  {
    var after := status + [next];
    assert after[..|after| - 1] == status && after[|after| - 1] == next;
    SumBump(skipped, next.leader, n);
    forall leader
      ensures Get(Bump(skipped, next.leader, n), leader) == SkippedOf(after, leader)
    {
      assert Get(skipped, leader) == SkippedOf(status, leader);
    }
  }

  lemma CountOne(
    status: seq<SlotStatus>, slots: map<Leader, nat>, skipped: map<Leader, nat>, next: SlotStatus)
    requires Counted(status, slots, skipped)
    ensures Counted(status + [next], Bump(slots, next.leader, 1),
                    Bump(skipped, next.leader, if next.skipped then 1 else 0))
  {
    CountSlot(status, slots, next);
    CountSkipped(status, skipped, next, if next.skipped then 1 else 0);
  }

  /** No leader skips more slots than it led, so its produced blocks are well defined. */
  lemma {:induction false} SkippedAtMostLed(status: seq<SlotStatus>, leader: Leader)
    ensures SkippedOf(status, leader) <= SlotsOf(status, leader)
  {
    if status != [] { SkippedAtMostLed(status[..|status| - 1], leader); }
  }

  /** Move the pointer past the blocks below the slot and say whether it now stands on the slot. */
  method Advance(confirmed: seq<nat>, from: nat, slot: nat) returns (next: nat, found: bool)
    requires from <= |confirmed| && forall j :: 0 <= j < from ==> confirmed[j] < slot
    ensures next <= |confirmed| && forall j :: 0 <= j < next ==> confirmed[j] < slot
    ensures found <==> Seen(confirmed, slot)
  {
    next := from;
    while true
      invariant next <= |confirmed|
      invariant forall j :: 0 <= j < next ==> confirmed[j] < slot
      decreases |confirmed| - next
    {
      if next < |confirmed| {
        var block := confirmed[next];
        if block < slot {
          next := next + 1;
          continue;
        }
        if block == slot {
          return next, true;
        }
      }
      return next, false;
    }
  }

  lemma StatusSnoc(
    startSlot: nat, table: seq<Leader>, confirmed: seq<nat>, status: seq<SlotStatus>, found: bool)
    requires |status| < |table| && StatusesOf(startSlot, table, confirmed, status)
    requires found <==> Seen(confirmed, startSlot + |status|)
    ensures StatusesOf(startSlot, table, confirmed,
                       status + [SlotStatus(startSlot + |status|, table[|status|], !found)])
  {
  }

  /** The merge: one pointer into the confirmed list, whatever its order. */
  method MergeBlocks(startSlot: nat, table: seq<Leader>, confirmed: seq<nat>)
    returns (status: seq<SlotStatus>, slots: map<Leader, nat>, skipped: map<Leader, nat>)
    ensures |status| == |table| && StatusesOf(startSlot, table, confirmed, status)
    ensures Counted(status, slots, skipped)
  {
    var next: nat := 0;
    status, slots, skipped := [], map[], map[];
    assert Sum(slots) == 0;
    var i := 0;
    while i < |table|
      invariant i == |status| <= |table| && next <= |confirmed|
      invariant forall j :: 0 <= j < next ==> confirmed[j] < startSlot + i
      invariant StatusesOf(startSlot, table, confirmed, status)
      invariant Counted(status, slots, skipped)
    {
      var slot, leader := startSlot + i, table[i];
      var found;
      next, found := Advance(confirmed, next, slot);
      StatusSnoc(startSlot, table, confirmed, status, found);
      CountOne(status, slots, skipped, SlotStatus(slot, leader, !found));
      slots := Bump(slots, leader, 1);
      skipped := Bump(skipped, leader, if found then 0 else 1);
      status := status + [SlotStatus(slot, leader, !found)];
      i := i + 1;
    }
  }

  // ---------------------------------------------------------------- totals

  /** The blocks come in strictly increasing order and all belong to the n slots from start on. */
  ghost predicate InOrder(confirmed: seq<nat>, start: nat, n: nat)
  {
    && (forall i, j :: 0 <= i < j < |confirmed| ==> confirmed[i] < confirmed[j])
    && (forall i :: 0 <= i < |confirmed| ==> start <= confirmed[i] < start + n)
  }

  /** How many of the n slots from start on show a block. */
  ghost function SeenCount(confirmed: seq<nat>, start: nat, n: nat): nat
  {
    if n == 0 then 0 else SeenCount(confirmed, start, n - 1) + (if Seen(confirmed, start + n - 1) then 1 else 0)
  }

  ghost predicate AllBelow(confirmed: seq<nat>, block: nat)
  {
    forall i :: 0 <= i < |confirmed| ==> confirmed[i] < block
  }

  /** Appending a block shows one more slot exactly when the block exceeds all before it. */
  lemma SeenSnoc(confirmed: seq<nat>, block: nat, slot: nat)
    ensures Seen(confirmed + [block], slot) <==> Seen(confirmed, slot) || (slot == block && AllBelow(confirmed, block))
  {
    var c := confirmed + [block];
    if Seen(confirmed, slot) {
      var j :| 0 <= j < |confirmed| && confirmed[j] == slot && forall i :: 0 <= i < j ==> confirmed[i] < slot;
      assert c[j] == slot && forall i :: 0 <= i < j ==> c[i] < slot;
    }
    if slot == block && AllBelow(confirmed, block) {
      assert c[|confirmed|] == slot && forall i :: 0 <= i < |confirmed| ==> c[i] < slot;
    }
    if Seen(c, slot) {
      var j :| 0 <= j < |c| && c[j] == slot && forall i :: 0 <= i < j ==> c[i] < slot;
      assert forall i :: 0 <= i < j ==> confirmed[i] == c[i];
    }
  }

  lemma {:induction false} SeenCountSnoc(confirmed: seq<nat>, block: nat, start: nat, n: nat)
    ensures SeenCount(confirmed + [block], start, n)
         == SeenCount(confirmed, start, n) + (if AllBelow(confirmed, block) && start <= block < start + n then 1 else 0)
    decreases n
  {
    if n > 0 {
      SeenCountSnoc(confirmed, block, start, n - 1);
      SeenSnoc(confirmed, block, start + n - 1);
    }
  }

  lemma {:induction false} NothingSeen(start: nat, n: nat)
    ensures SeenCount([], start, n) == 0
    decreases n
  {
    if n > 0 { NothingSeen(start, n - 1); }
  }

  /** The merge accounts for every block of the list exactly when the list is in order. */
  lemma {:induction false} SeenCountIsLengthIffInOrder(confirmed: seq<nat>, start: nat, n: nat)
    ensures SeenCount(confirmed, start, n) <= |confirmed|
    ensures SeenCount(confirmed, start, n) == |confirmed| <==> InOrder(confirmed, start, n)
    decreases |confirmed|
  {
    if confirmed == [] {
      NothingSeen(start, n);
    } else {
      var init, last := confirmed[..|confirmed| - 1], confirmed[|confirmed| - 1];
      assert confirmed == init + [last];
      SeenCountIsLengthIffInOrder(init, start, n);
      SeenCountSnoc(init, last, start, n);
      InOrderSnoc(init, last, start, n);
    }
  }

  lemma InOrderSnoc(init: seq<nat>, last: nat, start: nat, n: nat)
    ensures InOrder(init + [last], start, n)
       <==> InOrder(init, start, n) && AllBelow(init, last) && start <= last < start + n
  {
    var c := init + [last];
    if InOrder(c, start, n) {
      assert forall i :: 0 <= i < |init| ==> init[i] == c[i];
      assert forall i :: 0 <= i < |init| ==> c[i] < c[|init|];
      assert c[|init|] == last;
    }
  }

  /** A slot of the window whose block is first listed after a later block. */
  ghost predicate Overtaken(confirmed: seq<nat>, slot: nat)
  {
    slot in confirmed && exists i :: 0 <= i < |confirmed| && confirmed[i] > slot && slot !in confirmed[..i]
  }

  /** Being in the list and being seen by the merge differ exactly for overtaken slots. */
  lemma SeenIffListedAndNotOvertaken(confirmed: seq<nat>, slot: nat)
    ensures Seen(confirmed, slot) <==> slot in confirmed && !Overtaken(confirmed, slot)
  {
    if slot in confirmed {
      var j := 0;
      while confirmed[j] != slot
        invariant j < |confirmed| && slot in confirmed[j..] && slot !in confirmed[..j]
        decreases |confirmed| - j
      {
        j := j + 1;
      }
      if !Overtaken(confirmed, slot) {
        forall i | 0 <= i < j
          ensures confirmed[i] < slot
        {
          assert confirmed[i] in confirmed[..j];
          assert slot !in confirmed[..i];
        }
      }
      if Seen(confirmed, slot) {
        var k :| 0 <= k < |confirmed| && confirmed[k] == slot && forall i :: 0 <= i < k ==> confirmed[i] < slot;
        forall i | 0 <= i < |confirmed| && confirmed[i] > slot
          ensures slot in confirmed[..i]
        {
          assert k < i && confirmed[..i][k] == slot;
        }
      }
    }
  }

  lemma {:induction false} SkippedAndSeen(
    startSlot: nat, table: seq<Leader>, confirmed: seq<nat>, status: seq<SlotStatus>)
    requires StatusesOf(startSlot, table, confirmed, status)
    ensures Skipped(status) + SeenCount(confirmed, startSlot, |status|) == |status|
    decreases |status|
  {
    if status != [] {
      SkippedAndSeen(startSlot, table, confirmed, status[..|status| - 1]);
    }
  }

  // ---------------------------------------------------------------- the report

  datatype Entry = Entry(leaderSlots: nat, blocksProduced: nat, skippedSlots: nat)

  datatype Report = Report(
    totalSlots: nat,
    totalBlocksProduced: nat,
    totalSlotsSkipped: nat,
    leaders: map<Leader, Entry>,
    status: seq<SlotStatus>)

  /** `TooManyBlocks` is the failing assertion that blocks do not outnumber slots. */
  datatype Outcome = Done(report: Report) | TooManyBlocks

  ghost function TotalLed(leaders: map<Leader, Entry>): nat
  {
    Sum(map l | l in leaders :: leaders[l].leaderSlots)
  }

  ghost function TotalProduced(leaders: map<Leader, Entry>): nat
  {
    Sum(map l | l in leaders :: leaders[l].blocksProduced)
  }

  ghost function TotalSkipped(leaders: map<Leader, Entry>): nat
  {
    Sum(map l | l in leaders :: leaders[l].skippedSlots)
  }

  /** One entry for every leader of the window, with its own counts. */
  ghost predicate EntriesOf(status: seq<SlotStatus>, leaders: map<Leader, Entry>)
  {
    && (forall l :: l in leaders <==> SlotsOf(status, l) > 0)
    && (forall l :: l in leaders ==>
          && leaders[l].leaderSlots == SlotsOf(status, l)
          && leaders[l].skippedSlots == SkippedOf(status, l)
          && leaders[l].blocksProduced + leaders[l].skippedSlots == leaders[l].leaderSlots)
  }

  lemma CountersFit(
    status: seq<SlotStatus>, slots: map<Leader, nat>, skipped: map<Leader, nat>, l: Leader)
    requires Counted(status, slots, skipped) && l in slots
    ensures slots[l] == SlotsOf(status, l) && skipped[l] == SkippedOf(status, l) && skipped[l] <= slots[l]
  {
    SkippedAtMostLed(status, l);
    assert Get(slots, l) == slots[l] && Get(skipped, l) == skipped[l];
  }

  lemma {:induction false} EntriesAddUp(slots: map<Leader, nat>, skipped: map<Leader, nat>, leaders: map<Leader, Entry>)
    requires slots.Keys == skipped.Keys == leaders.Keys
    requires forall l :: l in slots ==>
        skipped[l] <= slots[l] && leaders[l] == Entry(slots[l], slots[l] - skipped[l], skipped[l])
    ensures TotalLed(leaders) == Sum(slots) && TotalSkipped(leaders) == Sum(skipped)
    ensures TotalProduced(leaders) + Sum(skipped) == Sum(slots)
  {
    var produced := map l | l in leaders :: leaders[l].blocksProduced;
    SumDifference(slots, skipped, produced);
    assert (map l | l in leaders :: leaders[l].leaderSlots) == slots;
    assert (map l | l in leaders :: leaders[l].skippedSlots) == skipped;
  }

  /** The subtraction never underflows, and the entries add up to the window. */
  method MakeEntries(ghost status: seq<SlotStatus>, slots: map<Leader, nat>, skipped: map<Leader, nat>)
    returns (leaders: map<Leader, Entry>)
    requires Counted(status, slots, skipped)
    ensures EntriesOf(status, leaders)
    ensures TotalLed(leaders) == |status| && TotalSkipped(leaders) == Skipped(status)
    ensures TotalProduced(leaders) + Skipped(status) == |status|
  {
    forall l | l in slots
      ensures slots[l] == SlotsOf(status, l) && skipped[l] == SkippedOf(status, l) && skipped[l] <= slots[l]
    {
      CountersFit(status, slots, skipped, l);
    }
    leaders := map l | l in slots :: Entry(slots[l], slots[l] - skipped[l], skipped[l]);
    EntriesAddUp(slots, skipped, leaders);
  }

  /** One status per slot, with its leader, skipped exactly when no block is seen. */
  ghost predicate StatusLine(
    status: seq<SlotStatus>, entries: seq<Assignment>, first: nat, start: nat, confirmed: seq<nat>)
    requires first <= start
  {
    forall i :: 0 <= i < |status| ==>
      status[i] == SlotStatus(start + i, LeaderOf(entries, start - first + i), !Seen(confirmed, start + i))
  }

  /** What a report on a list of confirmed blocks promises. */
  ghost predicate Describes(r: Report, entries: seq<Assignment>, first: nat, start: nat, end: nat, confirmed: seq<nat>)
    requires first <= start <= end
  {
    && r.totalSlots == |r.status| == end - start + 1
    && r.totalBlocksProduced == |confirmed|
    && r.totalSlotsSkipped + |confirmed| == r.totalSlots
    && StatusLine(r.status, entries, first, start, confirmed)
    && EntriesOf(r.status, r.leaders)
    && AddsUp(r.leaders, start, r.totalSlots, confirmed)
  }

  lemma StatusFromTable(
    entries: seq<Assignment>, first: nat, start: nat, table: seq<Leader>, confirmed: seq<nat>, status: seq<SlotStatus>)
    requires first <= start && StatusesOf(start, table, confirmed, status)
    requires forall i :: 0 <= i < |table| ==> table[i] == LeaderOf(entries, start - first + i)
    ensures StatusLine(status, entries, first, start, confirmed)
  {
  }

  /** The sums over leaders, in terms of the list of confirmed blocks. */
  ghost predicate AddsUp(leaders: map<Leader, Entry>, start: nat, n: nat, confirmed: seq<nat>)
  {
    && TotalLed(leaders) == n
    && TotalProduced(leaders) + TotalSkipped(leaders) == n
    && TotalProduced(leaders) <= |confirmed|
    && (TotalProduced(leaders) == |confirmed| <==> InOrder(confirmed, start, n))
  }

  lemma TotalsFromStatus(
    leaders: map<Leader, Entry>, start: nat, table: seq<Leader>, confirmed: seq<nat>, status: seq<SlotStatus>)
    requires StatusesOf(start, table, confirmed, status)
    requires TotalLed(leaders) == |status| && TotalSkipped(leaders) == Skipped(status)
    requires TotalProduced(leaders) + Skipped(status) == |status|
    ensures AddsUp(leaders, start, |status|, confirmed)
  {
    SkippedAndSeen(start, table, confirmed, status);
    SeenCountIsLengthIffInOrder(confirmed, start, |status|);
  }

  method ReportProduction(
    entries: seq<Assignment>, first: nat, start: nat, end: nat, confirmed: seq<nat>) returns (r: Outcome)
    requires first <= start <= end
    ensures r.TooManyBlocks? <==> |confirmed| > end - start + 1
    ensures r.Done? ==> Describes(r.report, entries, first, start, end, confirmed)
    ensures InOrder(confirmed, start, end - start + 1) ==> r.Done?
  {
    var startIndex, endIndex := start - first, end - first;
    var totalSlots := endIndex - startIndex + 1;
    InOrderFits(confirmed, start, totalSlots);
    if |confirmed| > totalSlots {
      return TooManyBlocks;
    }
    var table := LeaderTable(entries, startIndex, endIndex);
    var status, slots, skipped := MergeBlocks(start, table, confirmed);
    var leaders := MakeEntries(status, slots, skipped);
    TotalsFromStatus(leaders, start, table, confirmed, status);
    StatusFromTable(entries, first, start, table, confirmed, status);
    r := Done(Report(totalSlots, |confirmed|, totalSlots - |confirmed|, leaders, status));
  }

  /** Two blocks listed in the wrong order: the first slot is listed and reported as skipped. */
  method SwappedBlocks(entries: seq<Assignment>, first: nat, start: nat) returns (r: Outcome)
    requires first <= start
    ensures r.Done? && r.report.totalBlocksProduced == 2 && r.report.totalSlotsSkipped == 0
    ensures |r.report.status| == 2 && r.report.status[0].slot == start && r.report.status[0].skipped
    ensures TotalProduced(r.report.leaders) < 2
  {
    var confirmed := [start + 1, start];
    r := ReportProduction(entries, first, start, start + 1, confirmed);
    assert confirmed[0] > confirmed[1] == start;
    assert !Seen(confirmed, start) && !InOrder(confirmed, start, 2);
  }

  /** Blocks in order inside the window never outnumber its slots. */
  lemma InOrderFits(confirmed: seq<nat>, start: nat, n: nat)
    ensures InOrder(confirmed, start, n) ==> |confirmed| <= n
  {
    SeenCountIsLengthIffInOrder(confirmed, start, n);
    SeenCountBound(confirmed, start, n);
  }

  lemma {:induction false} SeenCountBound(confirmed: seq<nat>, start: nat, n: nat)
    ensures SeenCount(confirmed, start, n) <= n
    decreases n
  {
    if n > 0 { SeenCountBound(confirmed, start, n - 1); }
  }

  /** The fast path: the slots of the window that the slot history has found. */
  method FoundSlots(found: nat -> bool, start: nat, end: nat) returns (confirmed: seq<nat>)
    requires start <= end
    ensures InOrder(confirmed, start, end - start + 1)
    ensures forall slot :: start <= slot <= end ==> (Seen(confirmed, slot) <==> found(slot))
  {
    confirmed := [];
    var slot := start;
    while slot <= end
      invariant start <= slot <= end + 1
      invariant InOrder(confirmed, start, slot - start)
      invariant forall s :: start <= s < slot ==> (s in confirmed <==> found(s))
    {
      if found(slot) {
        InOrderSnoc(confirmed, slot, start, slot + 1 - start);
        confirmed := confirmed + [slot];
      }
      slot := slot + 1;
    }
    forall s | start <= s <= end
      ensures Seen(confirmed, s) <==> found(s)
    {
      SeenIffListedAndNotOvertaken(confirmed, s);
      InOrderNotOvertaken(confirmed, start, end - start + 1, s);
    }
  }

  lemma InOrderNotOvertaken(confirmed: seq<nat>, start: nat, n: nat, slot: nat)
    requires InOrder(confirmed, start, n)
    ensures !Overtaken(confirmed, slot)
  {
    forall i | 0 <= i < |confirmed| && confirmed[i] > slot && slot in confirmed
      ensures slot in confirmed[..i]
    {
      var j :| 0 <= j < |confirmed| && confirmed[j] == slot;
      assert j < i;
      assert confirmed[..i][j] == slot;
    }
  }
}
