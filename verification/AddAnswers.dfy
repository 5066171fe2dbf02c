/**
 * What overlapping adds may return: which of their answers are forced, and which answers some
 * schedule allows. Adds set their bits in the order of the keys and return true if they turned one on.
 */
module AddAnswers {
  import opened Prelude
  import opened Choices
  import opened BloomSpec
  import opened BitMachine

  /** The different bits of item x that are clear. */
  ghost function ClearBits<T>(hash: Hash<T>, m: Machine<T>, x: T): set<nat>
    requires Valid(m)
  {
    set p | 0 <= p < |m.bits| && !m.bits[p] && IsPosition(hash, m.keys, m.numBits, x, p)
  }

  // ---------------------------------------------------------------- one call, its own steps

  /** Some step of thread t in the run turns a bit on. */
  ghost predicate ChangesBits<T>(hash: Hash<T>, m: Machine<T>, schedule: seq<nat>, t: nat)
    requires Valid(m)
    decreases |schedule|
  {
    schedule != [] &&
    var m' := Step(hash, m, schedule[0]);
    (schedule[0] == t && m'.bits != m.bits) || ChangesBits(hash, m', schedule[1..], t)
  }

  /** A call comes to return true exactly when one of its own steps turns a bit on. */
  lemma {:induction false} ReportsIffChanges<T>(hash: Hash<T>, m: Machine<T>, schedule: seq<nat>, t: nat)
    requires Valid(m) && t < |m.threads|
    ensures Reports(Run(hash, m, schedule).threads[t]) <==> Reports(m.threads[t]) || ChangesBits(hash, m, schedule, t)
    decreases |schedule|
  {
    if schedule != [] {
      StepReportsIffChanges(hash, m, schedule[0]);
      ReportsIffChanges(hash, Step(hash, m, schedule[0]), schedule[1..], t);
    }
  }

  lemma StepReportsIffChanges<T>(hash: Hash<T>, m: Machine<T>, t: nat)
    requires Valid(m)
    ensures var m' := Step(hash, m, t);
            && (t < |m.threads| ==> (Reports(m'.threads[t]) <==> Reports(m.threads[t]) || m'.bits != m.bits))
            && forall u :: 0 <= u < |m.threads| && u != t ==> m'.threads[u] == m.threads[u]
  {
    if Runs(m, t) && m.threads[t].Adder? {
      var p := Target(hash, m, t, m.threads[t].pc);
      if m.bits[p] {
        assert m.bits[p := true] == m.bits;
      } else {
        assert m.bits[p := true][p] != m.bits[p];
      }
    }
  }

  // ---------------------------------------------------------------- when the answer must be true

  /** Some other call has yet to set bit p. */
  ghost predicate PendingElsewhere<T>(hash: Hash<T>, m: Machine<T>, t: nat, p: nat)
    requires Valid(m)
  {
    exists u, k :: u != t && Todo(m, u, k) && Target(hash, m, u, k) == p
  }

  /** Call t has turned a bit on, or bit p is clear, ahead of it, and nobody else's to set. */
  ghost predicate WillReport<T>(hash: Hash<T>, m: Machine<T>, t: nat, p: nat)
    requires Valid(m) && t < |m.threads| && p < |m.bits|
  {
    || Reports(m.threads[t])
    || (!m.bits[p] && !PendingElsewhere(hash, m, t, p) && exists k :: Todo(m, t, k) && Target(hash, m, t, k) == p)
  }

  lemma PendingBefore<T>(hash: Hash<T>, m: Machine<T>, u: nat, t: nat, p: nat)
    requires Valid(m) && PendingElsewhere(hash, Step(hash, m, u), t, p)
    ensures PendingElsewhere(hash, m, t, p)
  {
    var m' := Step(hash, m, u);
    var v, k :| v != t && Todo(m', v, k) && Target(hash, m', v, k) == p;
    assert Todo(m, v, k) && Target(hash, m, v, k) == p;
  }

  lemma StepKeepsWillReport<T>(hash: Hash<T>, m: Machine<T>, u: nat, t: nat, p: nat)
    requires Valid(m) && t < |m.threads| && p < |m.bits| && WillReport(hash, m, t, p)
    ensures WillReport(hash, Step(hash, m, u), t, p)
  {
    var m' := Step(hash, m, u);
    if Runs(m, u) && !Reports(m.threads[t]) {
      if PendingElsewhere(hash, m', t, p) { PendingBefore(hash, m, u, t, p); }
      assert m.threads[u].Adder? ==> Todo(m, u, m.threads[u].pc);
      var k :| Todo(m, t, k) && Target(hash, m, t, k) == p;
      if !(u == t && k == m.threads[t].pc) {
        assert Todo(m', t, k) && Target(hash, m', t, k) == p;
      }
    }
  }

  lemma {:induction false} RunKeepsWillReport<T>(hash: Hash<T>, m: Machine<T>, schedule: seq<nat>, t: nat, p: nat)
    requires Valid(m) && t < |m.threads| && p < |m.bits| && WillReport(hash, m, t, p)
    ensures WillReport(hash, Run(hash, m, schedule), t, p)
    decreases |schedule|
  {
    if schedule != [] {
      StepKeepsWillReport(hash, m, schedule[0], t, p);
      RunKeepsWillReport(hash, Step(hash, m, schedule[0]), schedule[1..], t, p);
    }
  }

  /** Steps of other calls: bits set or pending elsewhere stay so, and call t does not move. */
  lemma OthersStep<T>(hash: Hash<T>, m: Machine<T>, u: nat, t: nat, p: nat)
    requires Valid(m) && u != t && p < |m.bits| && (m.bits[p] || PendingElsewhere(hash, m, t, p))
    ensures var m' := Step(hash, m, u); m'.bits[p] || PendingElsewhere(hash, m', t, p)
  {
    var m' := Step(hash, m, u);
    if Runs(m, u) && !m.bits[p] {
      var v, k :| v != t && Todo(m, v, k) && Target(hash, m, v, k) == p;
      if !(v == u && k == m.threads[u].pc) {
        assert Todo(m', v, k) && Target(hash, m', v, k) == p;
      }
    }
  }

  lemma {:induction false} OthersRun<T>(hash: Hash<T>, m: Machine<T>, schedule: seq<nat>, t: nat, p: nat)
    requires Valid(m) && t !in schedule && p < |m.bits| && (m.bits[p] || PendingElsewhere(hash, m, t, p))
    ensures var r := Run(hash, m, schedule); r.bits[p] || PendingElsewhere(hash, r, t, p)
    decreases |schedule|
  {
    if schedule != [] {
      OthersStep(hash, m, schedule[0], t, p);
      OthersRun(hash, Step(hash, m, schedule[0]), schedule[1..], t, p);
    }
  }

  /** All calls but t run to their end, and t does not begin. */
  lemma {:induction false} OthersFirst<T>(hash: Hash<T>, m: Machine<T>, t: nat, done: nat) returns (schedule: seq<nat>)
    requires Valid(m) && t < |m.threads| && done <= |m.threads|
    requires forall u :: 0 <= u < done && u != t ==> Finished(m.keys, m.threads[u])
    ensures t !in schedule
    ensures var r := Run(hash, m, schedule);
            && r.threads[t] == m.threads[t]
            && forall u :: 0 <= u < |m.threads| && u != t ==> Finished(m.keys, r.threads[u])
    decreases |m.threads| - done
  {
    if done == |m.threads| {
      schedule := [];
    } else if done == t {
      schedule := OthersFirst(hash, m, t, done + 1);
    } else {
      var turns := Turns(done, |m.keys|);
      TurnsFinish(hash, m, done, |m.keys|);
      var rest := OthersFirst(hash, Run(hash, m, turns), t, done + 1);
      RunConcat(hash, m, turns, rest);
      schedule := turns + rest;
    }
  }

  /** A call whose clear bits are all pending elsewhere can be overtaken by everyone, and then returns false. */
  lemma CanReturnFalse<T>(hash: Hash<T>, m: Machine<T>, t: nat, x: T) returns (schedule: seq<nat>)
    requires Valid(m) && t < |m.threads| && m.threads[t] == Adder(x, 0, false)
    requires forall p :: p in ClearBits(hash, m, x) ==> PendingElsewhere(hash, m, t, p)
    ensures var r := Run(hash, m, schedule); Finished(m.keys, r.threads[t]) && !Reports(r.threads[t])
  {
    var others := OthersFirst(hash, m, t, 0);
    var r, n := Run(hash, m, others), |m.keys|;
    forall k | 0 <= k < n
      ensures r.bits[Position(hash, m.keys, m.numBits, x, k)]
    {
      var p := Position(hash, m.keys, m.numBits, x, k);
      assert !m.bits[p] ==> p in ClearBits(hash, m, x);
      OthersRun(hash, m, others, t, p);
    }
    SoloRun(hash, r, t, n);
    RunConcat(hash, m, others, Turns(t, n));
    schedule := others + Turns(t, n);
  }

  /** A clear bit of x that no call but t is going to set. */
  ghost predicate OwnClear<T>(hash: Hash<T>, m: Machine<T>, t: nat, x: T, p: nat)
    requires Valid(m)
  {
    p in ClearBits(hash, m, x) && !PendingElsewhere(hash, m, t, p)
  }

  ghost predicate ReturnsFalse<T>(hash: Hash<T>, m: Machine<T>, schedule: seq<nat>, t: nat)
    requires Valid(m) && t < |m.threads|
  {
    var r := Run(hash, m, schedule);
    Finished(m.keys, r.threads[t]) && !Reports(r.threads[t])
  }

  /** An add returns true whatever the schedule exactly when some clear bit is its own to set. */
  lemma AlwaysTrueIffOwnClear<T>(hash: Hash<T>, m: Machine<T>, t: nat, x: T)
    requires Valid(m) && t < |m.threads| && m.threads[t] == Adder(x, 0, false)
    ensures (forall schedule :: !ReturnsFalse(hash, m, schedule, t)) <==> exists p :: OwnClear(hash, m, t, x, p)
  {
    if exists p :: OwnClear(hash, m, t, x, p) {
      var p :| OwnClear(hash, m, t, x, p);
      var k :| 0 <= k < |m.keys| && Position(hash, m.keys, m.numBits, x, k) == p;
      assert Todo(m, t, k) && Target(hash, m, t, k) == p;
      forall schedule
        ensures !ReturnsFalse(hash, m, schedule, t)
      {
        RunKeepsWillReport(hash, m, schedule, t, p);
      }
    } else {
      forall p | p in ClearBits(hash, m, x)
        ensures PendingElsewhere(hash, m, t, p)
      {
        assert !OwnClear(hash, m, t, x, p);
      }
      var schedule := CanReturnFalse(hash, m, t, x);
      assert ReturnsFalse(hash, m, schedule, t);
    }
  }

  /** Once call t has returned, it said whether the item was missing when it began. */
  ghost predicate KeepsItsWord<T>(hash: Hash<T>, m: Machine<T>, schedule: seq<nat>, t: nat, x: T)
    requires Valid(m) && t < |m.threads|
  {
    var r := Run(hash, m, schedule);
    Finished(m.keys, r.threads[t]) ==> (Reports(r.threads[t]) <==> !AllSet(hash, m, x))
  }

  lemma AllSetIffNothingClear<T>(hash: Hash<T>, m: Machine<T>, x: T)
    requires Valid(m)
    ensures AllSet(hash, m, x) <==> ClearBits(hash, m, x) == {}
  {
    if !AllSet(hash, m, x) {
      var k :| 0 <= k < |m.keys| && !m.bits[Position(hash, m.keys, m.numBits, x, k)];
      assert Position(hash, m.keys, m.numBits, x, k) in ClearBits(hash, m, x);
    }
  }

  /**
   * The answer says under every schedule whether the item was missing when the call began, exactly
   * when the item was there already or some clear bit of it is the call's own to set.
   */
  lemma KeepsItsWordIffPresentOrOwnClear<T>(hash: Hash<T>, m: Machine<T>, t: nat, x: T)
    requires Valid(m) && t < |m.threads| && m.threads[t] == Adder(x, 0, false)
    ensures (forall schedule :: KeepsItsWord(hash, m, schedule, t, x))
       <==> AllSet(hash, m, x) || exists p :: OwnClear(hash, m, t, x, p)
  {
    AllSetIffNothingClear(hash, m, x);
    AlwaysTrueIffOwnClear(hash, m, t, x);
    forall schedule
      ensures KeepsItsWord(hash, m, schedule, t, x) <==> AllSet(hash, m, x) || !ReturnsFalse(hash, m, schedule, t)
    {
      RunKeepsLearnt(hash, m, m, schedule, t);
    }
  }

  // ---------------------------------------------------------------- when all answers can be true

  /** Every call is an add that will return true. */
  ghost predicate AllReport<T>(threads: seq<Thread<T>>)
  {
    forall t :: 0 <= t < |threads| ==> Reports(threads[t])
  }

  ghost predicate AllReturnTrue<T>(hash: Hash<T>, m: Machine<T>, schedule: seq<nat>)
    requires Valid(m)
  {
    var r := Run(hash, m, schedule);
    Complete(r) && AllReport(r.threads)
  }

  /** The bits the keys of x address, in order. */
  ghost function WantedBy<T>(hash: Hash<T>, keys: seq<u64>, numBits: nat, x: T): (w: seq<nat>)
    requires Sane(keys, numBits)
    ensures |w| == |keys| && forall k :: 0 <= k < |keys| ==> w[k] == Position(hash, keys, numBits, x, k)
  {
    seq(|keys|, k requires 0 <= k < |keys| => Position(hash, keys, numBits, x, k))
  }

  /** What each call wants. */
  ghost function Wanted<T>(hash: Hash<T>, m: Machine<T>): (w: Wishes)
    requires Valid(m)
    ensures |w| == |m.threads|
    ensures forall t :: 0 <= t < |w| ==> w[t] == WantedBy(hash, m.keys, m.numBits, m.threads[t].item)
  {
    seq(|m.threads|, t requires 0 <= t < |m.threads| => WantedBy(hash, m.keys, m.numBits, m.threads[t].item))
  }

  ghost function Clear<T>(m: Machine<T>): set<nat>
  {
    set p | 0 <= p < |m.bits| && !m.bits[p]
  }

  /** For each of some calls one of its keys, so that the keys address different bits, all clear. */
  ghost predicate Distinct<T>(hash: Hash<T>, m: Machine<T>, c: map<nat, nat>)
    requires Valid(m)
  {
    Chooses(Wanted(hash, m), Clear(m), c)
  }

  /** All of n calls have a choice. */
  ghost predicate Covers(c: map<nat, nat>, n: nat)
  {
    forall t :: 0 <= t < n ==> t in c
  }

  /** The keys won so far: each reporting call has turned on the bit of its own key. */
  ghost predicate Won<T>(wanted: Wishes, clear: set<nat>, m: Machine<T>, w: map<nat, nat>)
  {
    && Chooses(wanted, clear, w)
    && (forall t :: t in w ==> wanted[t][w[t]] !in Clear(m))
    && (forall t :: 0 <= t < |m.threads| && Reports(m.threads[t]) ==> t in w)
  }

  /** Clear bits come from clear bits, and the calls still want what they wanted. */
  lemma StepKeepsWanted<T>(hash: Hash<T>, m: Machine<T>, t: nat)
    requires Valid(m)
    ensures Wanted(hash, Step(hash, m, t)) == Wanted(hash, m) && Clear(Step(hash, m, t)) <= Clear(m)
  {
    var m' := Step(hash, m, t);
    assert forall u :: 0 <= u < |m.threads| ==> m'.threads[u].item == m.threads[u].item;
    assert Wanted(hash, m') == Wanted(hash, m);
  }

  lemma WinOne<T>(hash: Hash<T>, m: Machine<T>, clear: set<nat>, w: map<nat, nat>, t: nat)
    returns (v: map<nat, nat>)
    requires Valid(m) && Clear(m) <= clear && Won(Wanted(hash, m), clear, m, w)
    ensures Won(Wanted(hash, m), clear, Step(hash, m, t), v)
  {
    StepKeepsWanted(hash, m, t);
    StepReportsIffChanges(hash, m, t);
    v := w;
    if SeesClear(hash, m, t) && t !in w {
      assert Wanted(hash, m)[t][m.threads[t].pc] in Clear(m);
      v := w[t := m.threads[t].pc];
    }
  }

  lemma {:induction false} Winners<T>(
    hash: Hash<T>, m: Machine<T>, clear: set<nat>, w: map<nat, nat>, schedule: seq<nat>) returns (v: map<nat, nat>)
    requires Valid(m) && Clear(m) <= clear && Won(Wanted(hash, m), clear, m, w)
    ensures Won(Wanted(hash, m), clear, Run(hash, m, schedule), v)
    decreases |schedule|
  {
    if schedule == [] {
      v := w;
    } else {
      StepKeepsWanted(hash, m, schedule[0]);
      v := WinOne(hash, m, clear, w, schedule[0]);
      v := Winners(hash, Step(hash, m, schedule[0]), clear, v, schedule[1..]);
    }
  }

  /** Up to and including its first clear bit, an add sets that bit only, and reports it. */
  lemma RunToFirstClear<T>(hash: Hash<T>, m: Machine<T>, t: nat, x: T, i: nat)
    requires Valid(m) && t < |m.threads| && m.threads[t] == Adder(x, 0, false) && i < |m.keys|
    requires HoldsUpTo(hash, m.keys, m.numBits, m.bits, x, i) && !m.bits[Position(hash, m.keys, m.numBits, x, i)]
    ensures var r := Run(hash, m, Turns(t, i + 1));
            && r.threads == m.threads[t := Adder(x, i + 1, true)]
            && r.bits == m.bits[Position(hash, m.keys, m.numBits, x, i) := true]
  {
    SoloRun(hash, m, t, i + 1);
  }

  lemma FirstWish<T>(hash: Hash<T>, m: Machine<T>, x: T, i: nat)
    requires Valid(m) && IsFirst(WantedBy(hash, m.keys, m.numBits, x), Clear(m), i)
    ensures HoldsUpTo(hash, m.keys, m.numBits, m.bits, x, i) && !m.bits[Position(hash, m.keys, m.numBits, x, i)]
  {
    var wish := WantedBy(hash, m.keys, m.numBits, x);
    forall j | 0 <= j < i
      ensures m.bits[Position(hash, m.keys, m.numBits, x, j)]
    {
      assert wish[j] !in Clear(m);
    }
  }

  /** The calls of the choice have not begun; all others have turned a bit on. */
  ghost predicate Waiting<T>(hash: Hash<T>, m: Machine<T>, c: map<nat, nat>)
    requires Valid(m)
  {
    && Distinct(hash, m, c)
    && forall t :: 0 <= t < |m.threads| ==>
         if t in c then m.threads[t] == Adder(m.threads[t].item, 0, false) else Reports(m.threads[t])
  }

  lemma ClearWithout<T>(m: Machine<T>, r: Machine<T>, p: nat)
    requires p < |m.bits| && r.bits == m.bits[p := true]
    ensures Clear(r) == Clear(m) - {p}
  {
  }

  lemma ChoosesWithout(wishes: Wishes, free: set<nat>, d: map<nat, nat>, t: nat)
    requires Chooses(wishes, free, d) && t in d
    ensures Chooses(wishes, free - {wishes[t][d[t]]}, d - {t})
  {
  }

  lemma {:induction false} OneLessWaiting<T>(hash: Hash<T>, m: Machine<T>, d: map<nat, nat>, t: nat)
    requires Valid(m) && Waiting(hash, m, d) && t in d && IsFirst(Wanted(hash, m)[t], Clear(m), d[t])
    ensures Waiting(hash, Run(hash, m, Turns(t, d[t] + 1)), d - {t})
  {
    var r, x := Run(hash, m, Turns(t, d[t] + 1)), m.threads[t].item;
    FirstWish(hash, m, x, d[t]);
    RunToFirstClear(hash, m, t, x, d[t]);
    ClearWithout(m, r, Position(hash, m.keys, m.numBits, x, d[t]));
    ChoosesWithout(Wanted(hash, m), Clear(m), d, t);
    assert Wanted(hash, r) == Wanted(hash, m);
  }

  /** A call that would return true still would after any run. */
  lemma {:induction false} RunKeepsReports<T>(hash: Hash<T>, m: Machine<T>, schedule: seq<nat>)
    requires Valid(m) && AllReport(m.threads)
    ensures AllReport(Run(hash, m, schedule).threads)
    decreases |schedule|
  {
    if schedule != [] { RunKeepsReports(hash, Step(hash, m, schedule[0]), schedule[1..]); }
  }

  /**
   * The choice is rearranged until some call has chosen its first clear bit. That call is stopped
   * just after this bit, and so on; in the end all calls run on.
   */
  lemma {:induction false} LetAllReport<T>(hash: Hash<T>, m: Machine<T>, c: map<nat, nat>) returns (schedule: seq<nat>)
    requires Valid(m) && Waiting(hash, m, c)
    ensures AllReturnTrue(hash, m, schedule)
    decreases c.Keys
  {
    if c.Keys == {} {
      schedule := SomeScheduleCompletes(hash, m, 0);
      RunKeepsReports(hash, m, schedule);
    } else {
      var d, t := SomeoneFirst(Wanted(hash, m), Clear(m), c);
      OneLessWaiting(hash, m, d, t);
      var turns := Turns(t, d[t] + 1);
      var rest := LetAllReport(hash, Run(hash, m, turns), d - {t});
      RunConcat(hash, m, turns, rest);
      schedule := turns + rest;
    }
  }

  /** One clear bit of each call can be chosen, all of them different. */
  ghost predicate CanChoose<T>(hash: Hash<T>, m: Machine<T>)
    requires Valid(m)
  {
    exists c :: Distinct(hash, m, c) && Covers(c, |m.threads|)
  }

  /** Overlapping adds can all return true exactly when different clear bits can be chosen for them. */
  lemma AllReturnTrueIffDistinctClear<T>(hash: Hash<T>, m: Machine<T>, items: seq<T>)
    requires Valid(m) && m.threads == Adders(items)
    ensures (exists schedule :: AllReturnTrue(hash, m, schedule)) <==> CanChoose(hash, m)
  {
    if exists schedule :: AllReturnTrue(hash, m, schedule) {
      var schedule :| AllReturnTrue(hash, m, schedule);
      var c := Winners(hash, m, Clear(m), map[], schedule);
      assert Distinct(hash, m, c) && Covers(c, |m.threads|);
    }
    if CanChoose(hash, m) {
      var c :| Distinct(hash, m, c) && Covers(c, |m.threads|);
      var schedule := LetAllReport(hash, m, c);
    }
  }

  // ---------------------------------------------------------------- many adds of one item

  /** n calls that are to add the same item. */
  function Copies<T>(x: T, n: nat): (items: seq<T>)
    ensures |items| == n && forall i :: 0 <= i < n ==> items[i] == x
  {
    seq(n, _ => x)
  }

  /** Calls for one item may choose any of its clear bits. */
  lemma {:induction false} ChooseBits<T>(hash: Hash<T>, m: Machine<T>, x: T, n: nat, s: set<nat>)
    returns (c: map<nat, nat>)
    requires Valid(m) && n <= |m.threads| && forall t :: 0 <= t < n ==> m.threads[t].item == x
    requires s <= ClearBits(hash, m, x) && n <= |s|
    ensures Distinct(hash, m, c) && Covers(c, n)
    ensures forall t :: t in c ==> t < n && Wanted(hash, m)[t][c[t]] in s
  {
    if n == 0 {
      c := map[];
    } else {
      var p :| p in s;
      var k :| 0 <= k < |m.keys| && Position(hash, m.keys, m.numBits, x, k) == p;
      assert Wanted(hash, m)[n - 1][k] == p && p in Clear(m);
      c := ChooseBits(hash, m, x, n - 1, s - {p});
      c := c[n - 1 := k];
    }
  }

  /** n different bits, chosen by n calls for one item. */
  lemma {:induction false} ChosenBits<T>(hash: Hash<T>, m: Machine<T>, x: T, n: nat, c: map<nat, nat>)
    returns (s: set<nat>)
    requires Valid(m) && n <= |m.threads| && forall t :: 0 <= t < |m.threads| ==> m.threads[t].item == x
    requires Distinct(hash, m, c) && Covers(c, n)
    ensures |s| == n && s <= ClearBits(hash, m, x)
    ensures forall p :: p in s ==> exists t :: 0 <= t < n && t in c && Wanted(hash, m)[t][c[t]] == p
  {
    if n == 0 {
      s := {};
    } else {
      s := ChosenBits(hash, m, x, n - 1, c);
      var p := Wanted(hash, m)[n - 1][c[n - 1]];
      assert p == Position(hash, m.keys, m.numBits, x, c[n - 1]) && p in Clear(m);
      s := s + {p};
    }
  }

  /** Overlapping adds of one item can all return true exactly when that many of its bits are clear. */
  lemma AllReturnTrueIffEnoughClear<T>(hash: Hash<T>, m: Machine<T>, x: T, n: nat)
    requires Valid(m) && m.threads == Adders(Copies(x, n))
    ensures (exists schedule :: AllReturnTrue(hash, m, schedule)) <==> n <= |ClearBits(hash, m, x)|
  {
    AllReturnTrueIffDistinctClear(hash, m, Copies(x, n));
    if CanChoose(hash, m) {
      var c :| Distinct(hash, m, c) && Covers(c, n);
      var s := ChosenBits(hash, m, x, n, c);
      SubsetSize(s, ClearBits(hash, m, x));
    }
    if n <= |ClearBits(hash, m, x)| {
      var c := ChooseBits(hash, m, x, n, ClearBits(hash, m, x));
    }
  }
}
