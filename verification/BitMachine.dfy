/**
 * The shared filter under concurrency, on a vector of bits. Each call is a thread that performs
 * one indivisible operation per hash key; a schedule says whose turn it is, and is otherwise
 * arbitrary. The vector may be longer than the filter: the bits beyond it are padding.
 */
module BitMachine {
  import opened Prelude
  import opened Bits
  import opened BloomSpec

  /** A call in progress: `pc` keys are done, the flag is the value it would return now. */
  datatype Thread<T> =
    | Adder(item: T, pc: nat, added: bool)
    | Reader(item: T, pc: nat, found: bool)

  datatype Machine<T> = Machine(keys: seq<u64>, numBits: nat, bits: seq<bool>, threads: seq<Thread<T>>)

  ghost predicate Valid<T>(m: Machine<T>)
  {
    Sane(m.keys, m.numBits) && m.numBits <= |m.bits|
  }

  /** A reader stops at the first clear bit. */
  predicate Finished<T>(keys: seq<u64>, th: Thread<T>)
  {
    th.pc >= |keys| || (th.Reader? && !th.found)
  }

  ghost predicate Complete<T>(m: Machine<T>)
  {
    forall t :: 0 <= t < |m.threads| ==> Finished(m.keys, m.threads[t])
  }

  ghost predicate Runs<T>(m: Machine<T>, t: nat)
  {
    t < |m.threads| && !Finished(m.keys, m.threads[t])
  }

  /** The bit the k-th operation of thread t addresses. */
  ghost function Target<T>(hash: Hash<T>, m: Machine<T>, t: nat, k: nat): (p: nat)
    requires Valid(m) && t < |m.threads| && k < |m.keys|
    ensures p < m.numBits
  {
    Position(hash, m.keys, m.numBits, m.threads[t].item, k)
  }

  /** One operation of thread t; a turn given to a finished call changes nothing. */
  ghost function Step<T>(hash: Hash<T>, m: Machine<T>, t: nat): (r: Machine<T>)
    requires Valid(m)
    ensures Valid(r) && r.keys == m.keys && r.numBits == m.numBits
    ensures |r.bits| == |m.bits| && |r.threads| == |m.threads|
  {
    if !Runs(m, t) then m
    else
      var p := Target(hash, m, t, m.threads[t].pc);
      match m.threads[t]
      case Adder(x, pc, added) =>
        m.(bits := m.bits[p := true], threads := m.threads[t := Adder(x, pc + 1, added || !m.bits[p])])
      case Reader(x, pc, _) =>
        m.(threads := m.threads[t := Reader(x, pc + 1, m.bits[p])])
  }

  ghost function Run<T>(hash: Hash<T>, m: Machine<T>, schedule: seq<nat>): (r: Machine<T>)
    requires Valid(m)
    ensures Valid(r) && r.keys == m.keys && r.numBits == m.numBits
    ensures |r.bits| == |m.bits| && |r.threads| == |m.threads|
    decreases |schedule|
  {
    if schedule == [] then m else Run(hash, Step(hash, m, schedule[0]), schedule[1..])
  }

  // ---------------------------------------------------------------- schedule independence

  /** Thread t is an add that has yet to reach its k-th key. */
  ghost predicate Todo<T>(m: Machine<T>, t: int, k: int)
  {
    0 <= t < |m.threads| && m.threads[t].Adder? && m.threads[t].pc <= k < |m.keys|
  }

  ghost predicate Pending<T>(hash: Hash<T>, m: Machine<T>, p: nat)
    requires Valid(m)
  {
    exists t, k :: Todo(m, t, k) && Target(hash, m, t, k) == p
  }

  /** Bit p is set already or some add still running will set it. */
  ghost predicate Destined<T>(hash: Hash<T>, m: Machine<T>, p: nat)
    requires Valid(m) && p < |m.bits|
  {
    m.bits[p] || Pending(hash, m, p)
  }

  /** What is destined to be set is the same before and after every step. */
  lemma StepKeepsDestiny<T>(hash: Hash<T>, m: Machine<T>, t: nat, p: nat)
    requires Valid(m) && p < |m.bits|
    ensures Destined(hash, Step(hash, m, t), p) <==> Destined(hash, m, p)
  {
    var m' := Step(hash, m, t);
    if Runs(m, t) {
      if Pending(hash, m', p) {
        var u, k :| Todo(m', u, k) && Target(hash, m', u, k) == p;
        assert Todo(m, u, k) && Target(hash, m, u, k) == p;
      }
      if Pending(hash, m, p) {
        var u, k :| Todo(m, u, k) && Target(hash, m, u, k) == p;
        if !(u == t && k == m.threads[t].pc) {
          assert Todo(m', u, k) && Target(hash, m', u, k) == p;
        }
      }
      assert m.threads[t].Adder? ==> Todo(m, t, m.threads[t].pc);
    }
  }

  lemma {:induction false} RunKeepsDestiny<T>(hash: Hash<T>, m: Machine<T>, schedule: seq<nat>, p: nat)
    requires Valid(m) && p < |m.bits|
    ensures Destined(hash, Run(hash, m, schedule), p) <==> Destined(hash, m, p)
    decreases |schedule|
  {
    if schedule != [] {
      StepKeepsDestiny(hash, m, schedule[0], p);
      RunKeepsDestiny(hash, Step(hash, m, schedule[0]), schedule[1..], p);
    }
  }

  /** Once every call has returned, exactly the destined bits are set. */
  lemma CompleteRunSetsDestined<T>(hash: Hash<T>, m: Machine<T>, schedule: seq<nat>)
    requires Valid(m) && Complete(Run(hash, m, schedule))
    ensures forall p :: 0 <= p < |m.bits| ==> (Run(hash, m, schedule).bits[p] <==> Destined(hash, m, p))
  {
    forall p | 0 <= p < |m.bits|
      ensures Run(hash, m, schedule).bits[p] <==> Destined(hash, m, p)
    {
      RunKeepsDestiny(hash, m, schedule, p);
    }
  }

  // ---------------------------------------------------------------- conservation

  /** The next operation of t is an add's, and it will see its bit clear. */
  ghost predicate SeesClear<T>(hash: Hash<T>, m: Machine<T>, t: nat)
    requires Valid(m)
  {
    Runs(m, t) && m.threads[t].Adder? && !m.bits[Target(hash, m, t, m.threads[t].pc)]
  }

  /** How many operations of the run saw their bit clear and set it. */
  ghost function ClearSeen<T>(hash: Hash<T>, m: Machine<T>, schedule: seq<nat>): nat
    requires Valid(m)
    decreases |schedule|
  {
    if schedule == [] then 0
    else (if SeesClear(hash, m, schedule[0]) then 1 else 0) + ClearSeen(hash, Step(hash, m, schedule[0]), schedule[1..])
  }

  /** Every bit that gets set is seen clear by exactly one operation. */
  lemma {:induction false} GrowthIsClearSeen<T>(hash: Hash<T>, m: Machine<T>, schedule: seq<nat>)
    requires Valid(m)
    ensures CountTrue(Run(hash, m, schedule).bits) == CountTrue(m.bits) + ClearSeen(hash, m, schedule)
    decreases |schedule|
  {
    if schedule != [] {
      var t := schedule[0];
      if Runs(m, t) { CountTrueUpdate(m.bits, Target(hash, m, t, m.threads[t].pc)); }
      GrowthIsClearSeen(hash, Step(hash, m, t), schedule[1..]);
    }
  }

  predicate Reports<T>(th: Thread<T>)
  {
    th.Adder? && th.added
  }

  /** How many adds would return true. */
  function CountReports<T>(threads: seq<Thread<T>>): nat
  {
    if threads == [] then 0 else (if Reports(threads[0]) then 1 else 0) + CountReports(threads[1..])
  }

  lemma {:induction false} CountReportsUpdate<T>(threads: seq<Thread<T>>, t: nat, th: Thread<T>)
    requires t < |threads|
    ensures CountReports(threads[t := th])
         == CountReports(threads) + (if Reports(th) then 1 else 0) - (if Reports(threads[t]) then 1 else 0)
  {
    if t > 0 {
      assert threads[t := th][1..] == threads[1..][t - 1 := th];
      CountReportsUpdate(threads[1..], t - 1, th);
    } else {
      assert threads[t := th][1..] == threads[1..];
    }
  }

  lemma {:induction false} NoReports<T>(threads: seq<Thread<T>>)
    ensures CountReports(threads) == 0 <==> forall t :: 0 <= t < |threads| ==> !Reports(threads[t])
  {
    if threads != [] {
      NoReports(threads[1..]);
      assert forall t :: 0 < t < |threads| ==> threads[t] == threads[1..][t - 1];
      assert forall t :: 0 <= t < |threads| - 1 ==> threads[1..][t] == threads[t + 1];
    }
  }

  /**
   * The adds that come to return true never outnumber the bits that got set, and if any bit got
   * set then some add returns true.
   */
  lemma {:induction false} ReportsBoundedByGrowth<T>(hash: Hash<T>, m: Machine<T>, schedule: seq<nat>)
    requires Valid(m)
    ensures var r := Run(hash, m, schedule);
            && CountReports(m.threads) <= CountReports(r.threads)
            && CountReports(r.threads) - CountReports(m.threads) <= CountTrue(r.bits) - CountTrue(m.bits)
            && (CountReports(r.threads) == 0 ==> r.bits == m.bits)
    decreases |schedule|
  {
    if schedule != [] {
      var t := schedule[0];
      var m' := Step(hash, m, t);
      if Runs(m, t) {
        CountTrueUpdate(m.bits, Target(hash, m, t, m.threads[t].pc));
        CountReportsUpdate(m.threads, t, m'.threads[t]);
        NoReports(m'.threads);
      }
      ReportsBoundedByGrowth(hash, m', schedule[1..]);
    }
  }

  // ---------------------------------------------------------------- what one call may conclude

  /** The bits of item x are all set. */
  ghost predicate AllSet<T>(hash: Hash<T>, m: Machine<T>, x: T)
    requires Valid(m)
  {
    HoldsUpTo(hash, m.keys, m.numBits, m.bits, x, |m.keys|)
  }

  /** `m` comes later than `from`: the same filter, and no bit has been cleared. */
  ghost predicate Later<T>(from: Machine<T>, m: Machine<T>)
  {
    && m.keys == from.keys && m.numBits == from.numBits && |m.threads| == |from.threads|
    && |from.bits| == |m.bits|
    && forall p :: 0 <= p < |m.bits| ==> from.bits[p] ==> m.bits[p]
  }

  /** What call t, begun when the machine was `from`, has learnt by now. */
  ghost predicate Learnt<T>(hash: Hash<T>, from: Machine<T>, m: Machine<T>, t: nat)
    requires Valid(from) && Valid(m) && Later(from, m) && t < |m.threads|
  {
    var th := m.threads[t];
    && th.item == from.threads[t].item
    && th.Adder? == from.threads[t].Adder?
    && th.pc <= |m.keys|
    && match th
       case Adder(x, pc, added) =>
         HoldsUpTo(hash, m.keys, m.numBits, m.bits, x, pc) && (added ==> !AllSet(hash, from, x))
       case Reader(x, pc, found) =>
         if found then HoldsUpTo(hash, m.keys, m.numBits, m.bits, x, pc) else !AllSet(hash, from, x)
  }

  lemma StepIsLater<T>(hash: Hash<T>, m: Machine<T>, u: nat)
    requires Valid(m)
    ensures Later(m, Step(hash, m, u))
  {
  }

  lemma HoldsLater<T>(hash: Hash<T>, m: Machine<T>, r: Machine<T>, x: T, n: nat)
    requires Valid(m) && Valid(r) && Later(m, r) && n <= |m.keys|
    requires HoldsUpTo(hash, m.keys, m.numBits, m.bits, x, n)
    ensures HoldsUpTo(hash, r.keys, r.numBits, r.bits, x, n)
  {
  }

  /** What the next operation of call t adds to what it has learnt. */
  lemma OwnStepLearns<T>(hash: Hash<T>, from: Machine<T>, m: Machine<T>, t: nat)
    requires Valid(from) && Valid(m) && Later(from, m) && Runs(m, t) && Learnt(hash, from, m, t)
    ensures Later(from, Step(hash, m, t)) && Learnt(hash, from, Step(hash, m, t), t)
  {
    var x, pc := m.threads[t].item, m.threads[t].pc;
    var p := Position(hash, m.keys, m.numBits, x, pc);
    StepIsLater(hash, m, t);
    HoldsLater(hash, m, Step(hash, m, t), x, pc);
    if !m.bits[p] {
      assert !from.bits[p];
      assert !AllSet(hash, from, x);
    }
  }

  lemma StepKeepsLearnt<T>(hash: Hash<T>, from: Machine<T>, m: Machine<T>, u: nat, t: nat)
    requires Valid(from) && Valid(m) && Later(from, m) && t < |m.threads|
    requires Learnt(hash, from, m, t)
    ensures Later(from, Step(hash, m, u)) && Learnt(hash, from, Step(hash, m, u), t)
  {
    if u == t && Runs(m, t) {
      OwnStepLearns(hash, from, m, t);
    } else {
      var m', th := Step(hash, m, u), m.threads[t];
      StepIsLater(hash, m, u);
      assert m'.threads[t] == th;
      if th.Adder? || th.found { HoldsLater(hash, m, m', th.item, th.pc); }
    }
  }

  lemma {:induction false} RunKeepsLearnt<T>(hash: Hash<T>, from: Machine<T>, m: Machine<T>, schedule: seq<nat>, t: nat)
    requires Valid(from) && Valid(m) && Later(from, m) && t < |m.threads|
    requires Learnt(hash, from, m, t)
    ensures Later(from, Run(hash, m, schedule)) && Learnt(hash, from, Run(hash, m, schedule), t)
    decreases |schedule|
  {
    if schedule != [] {
      StepKeepsLearnt(hash, from, m, schedule[0], t);
      RunKeepsLearnt(hash, from, Step(hash, m, schedule[0]), schedule[1..], t);
    }
  }

  // ---------------------------------------------------------------- calls that run alone

  /** n turns in a row for thread t. */
  function Turns(t: nat, n: nat): (schedule: seq<nat>)
    ensures |schedule| == n
  {
    seq(n, _ => t)
  }

  lemma {:induction false} RunConcat<T>(hash: Hash<T>, m: Machine<T>, a: seq<nat>, b: seq<nat>)
    requires Valid(m)
    ensures Run(hash, m, a + b) == Run(hash, Run(hash, m, a), b)
    decreases |a|
  {
    if a == [] {
      assert a + b == b;
    } else {
      assert (a + b)[1..] == a[1..] + b;
      RunConcat(hash, Step(hash, m, a[0]), a[1..], b);
    }
  }

  /** One of the n keys of item x from key pc on addresses a clear bit. */
  ghost predicate MeetsClear<T>(hash: Hash<T>, m: Machine<T>, x: T, pc: nat, n: nat)
    requires Valid(m) && pc + n <= |m.keys|
  {
    exists k :: pc <= k < pc + n && !m.bits[Position(hash, m.keys, m.numBits, x, k)]
  }

  /** The effect of n undisturbed turns of thread t, which is an add. */
  ghost predicate Solo<T>(hash: Hash<T>, m: Machine<T>, t: nat, n: nat, r: Machine<T>)
    requires Valid(m) && t < |m.threads| && m.threads[t].Adder?
    requires m.threads[t].pc + n <= |m.keys|
  {
    var x, pc := m.threads[t].item, m.threads[t].pc;
    && r.keys == m.keys && r.numBits == m.numBits && |r.bits| == |m.bits|
    && r.threads == m.threads[t := Adder(x, pc + n, m.threads[t].added || MeetsClear(hash, m, x, pc, n))]
    && forall p :: 0 <= p < |m.bits| ==>
         (r.bits[p] <==> m.bits[p] || exists k :: pc <= k < pc + n && Position(hash, m.keys, m.numBits, x, k) == p)
  }

  /**
   * Undisturbed, an add reports exactly whether it met a clear bit, sets the bits it passes
   * and nothing else, and leaves the other calls alone; keys that share a bit do not matter.
   */
  lemma {:induction false} SoloRun<T>(hash: Hash<T>, m: Machine<T>, t: nat, n: nat)
    requires Valid(m) && t < |m.threads| && m.threads[t].Adder?
    requires m.threads[t].pc + n <= |m.keys|
    ensures Solo(hash, m, t, n, Run(hash, m, Turns(t, n)))
    decreases n
  {
    if n == 0 {
      assert m.threads[t := m.threads[t]] == m.threads;
    } else {
      var m' := Step(hash, m, t);
      assert Turns(t, n)[1..] == Turns(t, n - 1);
      SoloRun(hash, m', t, n - 1);
      SoloStep(hash, m, t, n, Run(hash, m', Turns(t, n - 1)));
    }
  }

  lemma SoloStep<T>(hash: Hash<T>, m: Machine<T>, t: nat, n: nat, r: Machine<T>)
    requires Valid(m) && t < |m.threads| && m.threads[t].Adder?
    requires 0 < n && m.threads[t].pc + n <= |m.keys|
    requires Solo(hash, Step(hash, m, t), t, n - 1, r)
    ensures Solo(hash, m, t, n, r)
  {
    var x, pc := m.threads[t].item, m.threads[t].pc;
    var p, m' := Position(hash, m.keys, m.numBits, x, pc), Step(hash, m, t);
    assert MeetsClear(hash, m, x, pc, n) <==> !m.bits[p] || MeetsClear(hash, m', x, pc + 1, n - 1);
  }

  /** Calls that have not begun yet. */
  function Adders<T>(items: seq<T>): (threads: seq<Thread<T>>)
    ensures |threads| == |items|
  {
    seq(|items|, i requires 0 <= i < |items| => Adder(items[i], 0, false))
  }

  function Readers<T>(queries: seq<T>): (threads: seq<Thread<T>>)
    ensures |threads| == |queries|
  {
    seq(|queries|, i requires 0 <= i < |queries| => Reader(queries[i], 0, true))
  }

  /** Adds of some items next to queries for others. */
  function Calls<T>(items: seq<T>, queries: seq<T>): (threads: seq<Thread<T>>)
    ensures |threads| == |items| + |queries|
  {
    Adders(items) + Readers(queries)
  }

  lemma PendingAtStart<T>(hash: Hash<T>, m: Machine<T>, items: seq<T>, queries: seq<T>, p: nat)
    requires Valid(m) && m.threads == Calls(items, queries)
    ensures Pending(hash, m, p) <==> Covered(hash, m.keys, m.numBits, items, p)
  {
    if Pending(hash, m, p) {
      var t, k :| Todo(m, t, k) && Target(hash, m, t, k) == p;
      assert IsPosition(hash, m.keys, m.numBits, items[t], p);
    }
    if Covered(hash, m.keys, m.numBits, items, p) {
      var j :| 0 <= j < |items| && IsPosition(hash, m.keys, m.numBits, items[j], p);
      var k :| 0 <= k < |m.keys| && Position(hash, m.keys, m.numBits, items[j], k) == p;
      assert Todo(m, j, k) && Target(hash, m, j, k) == p;
    }
  }

  /** As many turns as it has keys left let any call finish, and leave the other calls alone. */
  lemma {:induction false} TurnsFinish<T>(hash: Hash<T>, m: Machine<T>, t: nat, n: nat)
    requires Valid(m) && t < |m.threads| && m.threads[t].pc + n >= |m.keys|
    ensures var r := Run(hash, m, Turns(t, n));
            && Finished(m.keys, r.threads[t])
            && forall u :: 0 <= u < |m.threads| && u != t ==> r.threads[u] == m.threads[u]
    decreases n
  {
    if n > 0 {
      assert Turns(t, n)[1..] == Turns(t, n - 1);
      if Runs(m, t) {
        TurnsFinish(hash, Step(hash, m, t), t, n - 1);
      } else {
        IdleTurns(hash, m, t, n);
      }
    }
  }

  lemma {:induction false} IdleTurns<T>(hash: Hash<T>, m: Machine<T>, t: nat, n: nat)
    requires Valid(m) && !Runs(m, t)
    ensures Run(hash, m, Turns(t, n)) == m
    decreases n
  {
    if n > 0 {
      assert Turns(t, n)[1..] == Turns(t, n - 1);
      IdleTurns(hash, m, t, n - 1);
    }
  }

  /** From any state, running the calls one after the other lets all of them finish. */
  lemma {:induction false} SomeScheduleCompletes<T>(
    hash: Hash<T>, m: Machine<T>, done: nat) returns (schedule: seq<nat>)
    requires Valid(m) && done <= |m.threads|
    requires forall t :: 0 <= t < done ==> Finished(m.keys, m.threads[t])
    ensures Complete(Run(hash, m, schedule))
    decreases |m.threads| - done
  {
    if done == |m.threads| {
      schedule := [];
    } else {
      var turns := Turns(done, |m.keys|);
      TurnsFinish(hash, m, done, |m.keys|);
      var rest := SomeScheduleCompletes(hash, Run(hash, m, turns), done + 1);
      RunConcat(hash, m, turns, rest);
      schedule := turns + rest;
    }
  }
}
