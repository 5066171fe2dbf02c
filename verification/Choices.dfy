/**
 * Everyone wants one of several things, in an order of preference. If different things can be given
 * to all, then they can also be given out by letting everyone in turn take the first thing still free.
 */
module Choices {
  import opened MapSums

  /** Things by preference, one list for each. */
  type Wishes = seq<seq<nat>>

  /** For some of them a wish each: free things, all different. */
  ghost predicate Chooses(wishes: Wishes, free: set<nat>, c: map<nat, nat>)
  {
    && (forall t :: t in c ==> t < |wishes| && c[t] < |wishes[t]| && wishes[t][c[t]] in free)
    && (forall t, u :: t in c && u in c && t != u ==> wishes[t][c[t]] != wishes[u][c[u]])
  }

  /** Wish i is the first free one. */
  ghost predicate IsFirst(wish: seq<nat>, free: set<nat>, i: nat)
  {
    i < |wish| && wish[i] in free && forall j :: 0 <= j < i ==> wish[j] !in free
  }

  function First(wish: seq<nat>, free: set<nat>, k: nat): (i: nat)
    requires k < |wish| && wish[k] in free
    ensures i <= k && IsFirst(wish, free, i)
  {
    if wish[0] in free then 0
    else First(wish[1..], free, k - 1) + 1
  }

  // ---------------------------------------------------------------- functions from a set into itself

  function Image(g: nat -> nat, s: set<nat>): set<nat>
  {
    set t | t in s :: g(t)
  }

  lemma SubsetSize(a: set<nat>, b: set<nat>)
    requires a <= b
    ensures |a| <= |b|
  {
    assert b == a + (b - a) && a !! (b - a);
  }

  lemma {:induction false} ImageAtMost(g: nat -> nat, s: set<nat>)
    ensures |Image(g, s)| <= |s|
    decreases |s|
  {
    if s != {} {
      var t :| t in s;
      ImageAtMost(g, s - {t});
      assert Image(g, s) == Image(g, s - {t}) + {g(t)};
    }
  }

  lemma MergedImage(g: nat -> nat, s: set<nat>, t: nat, u: nat)
    requires t in s && u in s && t != u && g(t) == g(u)
    ensures |Image(g, s)| < |s|
  {
    assert Image(g, s) <= Image(g, s - {t}) by {
      assert u in s - {t};
    }
    SubsetSize(Image(g, s), Image(g, s - {t}));
    ImageAtMost(g, s - {t});
  }

  /** The function takes the set into itself. */
  ghost predicate Into(g: nat -> nat, s: set<nat>)
  {
    forall t {:trigger g(t)} :: t in s ==> g(t) in s
  }

  /** The function takes the set into itself, different elements to different ones. */
  ghost predicate Permutes(g: nat -> nat, s: set<nat>)
  {
    && Into(g, s)
    && (forall t, u {:trigger g(t), g(u)} :: t in s && u in s && t != u ==> g(t) != g(u))
  }

  /** A function that takes a set onto itself permutes it. */
  lemma OntoPermutes(g: nat -> nat, s: set<nat>)
    requires Image(g, s) == s
    ensures Permutes(g, s)
  {
    forall t | t in s
      ensures g(t) in s
    {
      assert g(t) in Image(g, s);
    }
    forall t, u | t in s && u in s && t != u
      ensures g(t) != g(u)
    {
      if g(t) == g(u) { MergedImage(g, s, t, u); }
    }
  }

  /** A function from a nonempty set into itself permutes some nonempty subset. */
  lemma {:induction false} Core(g: nat -> nat, s: set<nat>) returns (core: set<nat>)
    requires s != {} && Into(g, s)
    ensures core != {} && core <= s && Permutes(g, core)
    decreases s
  {
    if Image(g, s) == s {
      OntoPermutes(g, s);
      core := s;
    } else {
      var t :| t in s;
      assert g(t) in Image(g, s);
      assert Image(g, s) <= s;
      core := Core(g, Image(g, s));
    }
  }

  // ---------------------------------------------------------------- rearranging a choice

  /** The first free wish of everyone in the choice. */
  ghost predicate AreFirsts(wishes: Wishes, free: set<nat>, c: map<nat, nat>, f: map<nat, nat>)
    requires Chooses(wishes, free, c)
  {
    f.Keys == c.Keys && forall t :: t in c ==> f[t] <= c[t] && IsFirst(wishes[t], free, f[t])
  }

  /** The choice with some moved to their first wishes. */
  function Moved(c: map<nat, nat>, f: map<nat, nat>, s: set<nat>): (d: map<nat, nat>)
    requires f.Keys == c.Keys
    ensures d.Keys == c.Keys
  {
    map t | t in c :: if t in s then f[t] else c[t]
  }

  /** u has chosen the first wish of t. */
  ghost predicate ClaimedBy(wishes: Wishes, c: map<nat, nat>, f: map<nat, nat>, t: nat, u: nat)
  {
    && t in f && t < |wishes| && f[t] < |wishes[t]|
    && u in c && u < |wishes| && c[u] < |wishes[u]|
    && wishes[u][c[u]] == wishes[t][f[t]]
  }

  ghost predicate Claimed(wishes: Wishes, c: map<nat, nat>, f: map<nat, nat>, t: nat)
  {
    exists u :: ClaimedBy(wishes, c, f, t, u)
  }

  /** A group that passes its first wishes round may move to them. */
  lemma RoundIsChoice(
    wishes: Wishes, free: set<nat>, c: map<nat, nat>, f: map<nat, nat>, g: nat -> nat, s: set<nat>)
    requires Chooses(wishes, free, c) && AreFirsts(wishes, free, c, f) && s <= c.Keys && Permutes(g, s)
    requires forall t {:trigger g(t)} :: t in s ==> ClaimedBy(wishes, c, f, t, g(t))
    ensures Chooses(wishes, free, Moved(c, f, s))
  {
    var d := Moved(c, f, s);
    forall t, u | t in d && u in d && t != u
      ensures wishes[t][d[t]] != wishes[u][d[u]]
    {
      assert t in s ==> g(t) in s;
      assert u in s ==> g(u) in s;
    }
  }

  lemma OneIsChoice(wishes: Wishes, free: set<nat>, c: map<nat, nat>, f: map<nat, nat>, t: nat)
    requires Chooses(wishes, free, c) && AreFirsts(wishes, free, c, f)
    requires t in c && !Claimed(wishes, c, f, t)
    ensures Chooses(wishes, free, Moved(c, f, {t}))
  {
    assert forall u :: u in c ==> !ClaimedBy(wishes, c, f, t, u);
  }

  /** Who has the first wish of everyone in the set. */
  lemma {:induction false} Claimants(wishes: Wishes, c: map<nat, nat>, f: map<nat, nat>, s: set<nat>)
    returns (g: nat -> nat)
    requires AllClaimed(wishes, c, f, s)
    ensures forall t {:trigger g(t)} :: t in s ==> ClaimedBy(wishes, c, f, t, g(t))
  {
    if s == {} {
      g := (t: nat) => t;
    } else {
      var t :| t in s;
      assert Claimed(wishes, c, f, t);
      var u: nat :| ClaimedBy(wishes, c, f, t, u);
      var rest := Claimants(wishes, c, f, s - {t});
      g := (v: nat) => if v == t then u else rest(v);
    }
  }

  lemma ClaimantsChoose(wishes: Wishes, c: map<nat, nat>, f: map<nat, nat>, g: nat -> nat)
    requires forall t {:trigger g(t)} :: t in c ==> ClaimedBy(wishes, c, f, t, g(t))
    ensures Into(g, c.Keys)
  {
  }

  lemma MoveRound(
    wishes: Wishes, free: set<nat>, c: map<nat, nat>, f: map<nat, nat>, g: nat -> nat) returns (s: set<nat>)
    requires Chooses(wishes, free, c) && AreFirsts(wishes, free, c, f) && c.Keys != {}
    requires forall t {:trigger g(t)} :: t in c ==> ClaimedBy(wishes, c, f, t, g(t))
    ensures s != {} && s <= c.Keys && Chooses(wishes, free, Moved(c, f, s))
  {
    ClaimantsChoose(wishes, c, f, g);
    s := Core(g, c.Keys);
    RoundIsChoice(wishes, free, c, f, g, s);
  }

  /** Everyone's first wish is taken. */
  ghost predicate AllClaimed(wishes: Wishes, c: map<nat, nat>, f: map<nat, nat>, s: set<nat>)
  {
    forall t {:trigger Claimed(wishes, c, f, t)} :: t in s ==> Claimed(wishes, c, f, t)
  }

  /** Some may move to their first wishes: one whose first wish nobody has, or a group that passes theirs round. */
  lemma Movers(wishes: Wishes, free: set<nat>, c: map<nat, nat>, f: map<nat, nat>)
    returns (s: set<nat>)
    requires Chooses(wishes, free, c) && AreFirsts(wishes, free, c, f) && c.Keys != {}
    ensures s != {} && s <= c.Keys && Chooses(wishes, free, Moved(c, f, s))
  {
    if AllClaimed(wishes, c, f, c.Keys) {
      var g := Claimants(wishes, c, f, c.Keys);
      s := MoveRound(wishes, free, c, f, g);
    } else {
      var t :| t in c && !Claimed(wishes, c, f, t);
      OneIsChoice(wishes, free, c, f, t);
      s := {t};
    }
  }

  /** A choice can be rearranged until someone has the first wish. */
  lemma {:induction false} SomeoneFirst(
    wishes: Wishes, free: set<nat>, c: map<nat, nat>) returns (d: map<nat, nat>, t: nat)
    requires Chooses(wishes, free, c) && c.Keys != {}
    ensures d.Keys == c.Keys && Chooses(wishes, free, d) && t in d && IsFirst(wishes[t], free, d[t])
    decreases Sum(c)
  {
    var f := map u | u in c :: First(wishes[u], free, c[u]);
    if exists u :: u in c && c[u] == f[u] {
      t :| t in c && c[t] == f[t];
      d := c;
    } else {
      var s := Movers(wishes, free, c, f);
      var u :| u in s;
      SumLess(Moved(c, f, s), c, u);
      d, t := SomeoneFirst(wishes, free, Moved(c, f, s));
    }
  }
}
