/** Collecting the signers of a command: duplicates dropped, positions handed out as indices. */
module Signers {
  import opened Prelude

  type Pubkey = nat

  /** A signer and where it was loaded from; two signers are equal when their keys are. */
  datatype Signer = Signer(pubkey: Pubkey, source: nat)

  predicate HasKey(signers: seq<Signer>, key: Pubkey)
  {
    exists i :: 0 <= i < |signers| && signers[i].pubkey == key
  }

  /** The signers that are not preceded by one with the same key. */
  function FirstOccurrences(signers: seq<Signer>): seq<Signer>
  {
    if signers == [] then []
    else
      var init, last := signers[..|signers| - 1], signers[|signers| - 1];
      if HasKey(init, last.pubkey) then FirstOccurrences(init) else FirstOccurrences(init) + [last]
  }

  function Flatten(bulk: seq<Option<Signer>>): seq<Signer>
  {
    if bulk == [] then []
    else
      var init, last := Flatten(bulk[..|bulk| - 1]), bulk[|bulk| - 1];
      if last.Some? then init + [last.value] else init
  }

  predicate SomeAbsent(bulk: seq<Option<Signer>>)
  {
    exists i :: 0 <= i < |bulk| && bulk[i].None?
  }

  /** All signers there are, the default one first if any entry is absent. */
  function Candidates(default: Option<Signer>, bulk: seq<Option<Signer>>): seq<Signer>
  {
    (if SomeAbsent(bulk) && default.Some? then [default.value] else []) + Flatten(bulk)
  }

  /** `generate_unique_signers`; it fails when the default signer is needed and cannot be loaded. */
  method GenerateUniqueSigners(default: Option<Signer>, bulk: seq<Option<Signer>>) returns (r: Option<seq<Signer>>)
    ensures r.None? <==> SomeAbsent(bulk) && default.None?
    ensures r.Some? ==> r.value == FirstOccurrences(Candidates(default, bulk))
    ensures r.Some? ==>
              var start := if SomeAbsent(bulk) then [default.value] else [];
              r.value == start + NewEntries(start, bulk, |bulk|)
  {
    var unique: seq<Signer> := [];
    if SomeAbsent(bulk) {
      if default.None? { return None; }
      unique := [default.value];
      assert FirstOccurrences([default.value]) == [default.value] by {
        assert [default.value][..0] == [];
      }
    }
    ghost var start := unique;
    var i := 0;
    while i < |bulk|
      invariant i <= |bulk|
      invariant unique == FirstOccurrences(start + Flatten(bulk[..i]))
    {
      FirstsOfOneMore(start, bulk[..i], bulk[i]);
      assert bulk[..i + 1] == bulk[..i] + [bulk[i]];
      if bulk[i].Some? {
        var signer := bulk[i].value;
        if !HasKey(unique, signer.pubkey) {
          unique := unique + [signer];
        }
      }
      i := i + 1;
    }
    assert bulk[..|bulk|] == bulk;
    UniqueByPosition(default, bulk);
    return Some(unique);
  }

  // ---------------------------------------------------------------- first occurrences

  lemma {:induction false} FirstOccurrencesSameKeys(signers: seq<Signer>, key: Pubkey)
    ensures HasKey(FirstOccurrences(signers), key) <==> HasKey(signers, key)
  {
    if signers != [] {
      var init, last := signers[..|signers| - 1], signers[|signers| - 1];
      FirstOccurrencesSameKeys(init, key);
      assert signers == init + [last];
      HasKeyAppend(init, last, key);
      HasKeyAppend(FirstOccurrences(init), last, key);
    }
  }

  lemma FlattenSnoc(init: seq<Option<Signer>>, last: Option<Signer>)
    ensures Flatten(init + [last]) == if last.Some? then Flatten(init) + [last.value] else Flatten(init)
  {
    assert (init + [last])[..|init|] == init;
  }

  lemma FirstOccurrencesSnoc(all: seq<Signer>, s: Signer)
    ensures FirstOccurrences(all + [s])
         == if HasKey(all, s.pubkey) then FirstOccurrences(all) else FirstOccurrences(all) + [s]
  {
    assert (all + [s])[..|all|] == all;
  }

  /** One more entry of the list: a given signer whose key is not there yet is appended. */
  lemma {:induction false} FirstsOfOneMore(start: seq<Signer>, init: seq<Option<Signer>>, last: Option<Signer>)
    ensures var before := FirstOccurrences(start + Flatten(init));
            FirstOccurrences(start + Flatten(init + [last]))
            == if last.Some? && !HasKey(before, last.value.pubkey) then before + [last.value] else before
  {
    var all := start + Flatten(init);
    FlattenSnoc(init, last);
    if last.Some? {
      FirstOccurrencesSnoc(all, last.value);
      FirstOccurrencesSameKeys(all, last.value.pubkey);
      assert start + Flatten(init + [last]) == all + [last.value];
    }
  }

  lemma HasKeyAppend(signers: seq<Signer>, last: Signer, key: Pubkey)
    ensures HasKey(signers + [last], key) <==> HasKey(signers, key) || last.pubkey == key
  {
    var all := signers + [last];
    if HasKey(signers, key) {
      var i :| 0 <= i < |signers| && signers[i].pubkey == key;
      assert all[i].pubkey == key;
    }
    if last.pubkey == key { assert all[|signers|].pubkey == key; }
  }

  ghost predicate DistinctKeys(signers: seq<Signer>)
  {
    forall i, j :: 0 <= i < j < |signers| ==> signers[i].pubkey != signers[j].pubkey
  }

  lemma {:induction false} FirstOccurrencesDistinct(signers: seq<Signer>)
    ensures DistinctKeys(FirstOccurrences(signers))
  {
    if signers != [] {
      var init, last := signers[..|signers| - 1], signers[|signers| - 1];
      FirstOccurrencesDistinct(init);
      FirstOccurrencesSameKeys(init, last.pubkey);
    }
  }

  /** The order is that of the input, and the first candidate stays first. */
  lemma {:induction false} FirstStaysFirst(signers: seq<Signer>)
    requires signers != []
    ensures FirstOccurrences(signers) != [] && FirstOccurrences(signers)[0] == signers[0]
  {
    var init, last := signers[..|signers| - 1], signers[|signers| - 1];
    if init != [] {
      FirstStaysFirst(init);
    } else {
      assert FirstOccurrences(signers) == [] + [last];
    }
  }

  /** `at` picks, in order, exactly the positions not preceded by the same key. */
  ghost predicate PicksFirsts(signers: seq<Signer>, picked: seq<Signer>, at: seq<nat>)
  {
    && |at| == |picked|
    && (forall i :: 0 <= i < |at| ==> at[i] < |signers| && signers[at[i]] == picked[i])
    && (forall i, j :: 0 <= i < j < |at| ==> at[i] < at[j])
    && (forall k :: 0 <= k < |signers| ==> (k in at <==> !HasKey(signers[..k], signers[k].pubkey)))
  }

  lemma PicksFirstsSnoc(init: seq<Signer>, last: Signer, picked: seq<Signer>, before: seq<nat>)
    requires PicksFirsts(init, picked, before)
    ensures var all := init + [last];
            if HasKey(init, last.pubkey) then PicksFirsts(all, picked, before)
            else PicksFirsts(all, picked + [last], before + [|init|])
  {
    var all, n := init + [last], |init|;
    forall k | 0 <= k < |all|
      ensures k < n ==> all[..k] == init[..k] && all[k] == init[k]
      ensures k == n ==> all[..k] == init && all[k] == last
    {
    }
    assert forall i :: 0 <= i < |before| ==> before[i] in before;
    assert forall k :: k in before + [n] <==> k in before || k == n;
  }

  lemma {:induction false} FirstOccurrencesInOrder(signers: seq<Signer>) returns (at: seq<nat>)
    ensures PicksFirsts(signers, FirstOccurrences(signers), at)
  {
    if signers == [] {
      at := [];
    } else {
      var init, last := signers[..|signers| - 1], signers[|signers| - 1];
      at := FirstOccurrencesInOrder(init);
      PicksFirstsSnoc(init, last, FirstOccurrences(init), at);
      assert signers == init + [last];
      if !HasKey(init, last.pubkey) { at := at + [|init|]; }
    }
  }

  /** Signers with different keys are all first occurrences. */
  lemma {:induction false} DistinctUnchanged(signers: seq<Signer>)
    requires DistinctKeys(signers)
    ensures FirstOccurrences(signers) == signers
  {
    if signers != [] {
      var init, last := signers[..|signers| - 1], signers[|signers| - 1];
      DistinctUnchanged(init);
      assert signers == init + [last];
    }
  }

  /** A list in which no entry is absent. */
  function Given(signers: seq<Signer>): (bulk: seq<Option<Signer>>)
    ensures |bulk| == |signers|
  {
    seq(|signers|, i requires 0 <= i < |signers| => Some(signers[i]))
  }

  lemma {:induction false} FlattenGiven(signers: seq<Signer>)
    ensures Flatten(Given(signers)) == signers
  {
    if signers != [] {
      var n := |signers| - 1;
      FlattenGiven(signers[..n]);
      assert Given(signers)[..n] == Given(signers[..n]);
      assert signers == signers[..n] + [signers[n]];
    }
  }

  lemma AllGiven(default: Option<Signer>, signers: seq<Signer>)
    ensures Candidates(default, Given(signers)) == signers
  {
    FlattenGiven(signers);
  }

  // ---------------------------------------------------------------- by position in the list

  /** Entry i is given, and no earlier entry and none of the signers before the list has its key. */
  ghost predicate IsNew(start: seq<Signer>, bulk: seq<Option<Signer>>, i: nat)
  {
    && i < |bulk| && bulk[i].Some? && !HasKey(start, bulk[i].value.pubkey)
    && forall j :: 0 <= j < i && bulk[j].Some? ==> bulk[j].value.pubkey != bulk[i].value.pubkey
  }

  /** The new entries among the first n, in order. */
  ghost function NewEntries(start: seq<Signer>, bulk: seq<Option<Signer>>, n: nat): seq<Signer>
    requires n <= |bulk|
  {
    if n == 0 then []
    else NewEntries(start, bulk, n - 1) + (if IsNew(start, bulk, n - 1) then [bulk[n - 1].value] else [])
  }

  lemma {:induction false} NewIsFirst(start: seq<Signer>, bulk: seq<Option<Signer>>, n: nat)
    requires n < |bulk| && bulk[n].Some?
    ensures IsNew(start, bulk, n) <==> !HasKey(FirstOccurrences(start + Flatten(bulk[..n])), bulk[n].value.pubkey)
  {
    var key := bulk[n].value.pubkey;
    FlattenHasKey(bulk[..n], key);
    assert forall j :: 0 <= j < n ==> bulk[..n][j] == bulk[j];
    HasKeyConcat(start, Flatten(bulk[..n]), key);
    FirstOccurrencesSameKeys(start + Flatten(bulk[..n]), key);
  }

  lemma HasKeyConcat(a: seq<Signer>, b: seq<Signer>, key: Pubkey)
    ensures HasKey(a + b, key) <==> HasKey(a, key) || HasKey(b, key)
  {
    var all := a + b;
    assert forall i :: 0 <= i < |a| ==> all[i] == a[i];
    assert forall i :: 0 <= i < |b| ==> all[|a| + i] == b[i];
  }

  lemma {:induction false} NewEntriesMore(start: seq<Signer>, bulk: seq<Option<Signer>>, n: nat, before: seq<Signer>)
    requires n < |bulk| && before == FirstOccurrences(start + Flatten(bulk[..n]))
    ensures FirstOccurrences(start + Flatten(bulk[..n + 1]))
         == if IsNew(start, bulk, n) then before + [bulk[n].value] else before
  {
    FirstsOfOneMore(start, bulk[..n], bulk[n]);
    assert bulk[..n + 1] == bulk[..n] + [bulk[n]];
    if bulk[n].Some? { NewIsFirst(start, bulk, n); }
  }

  /** A list that grows by each new entry and by nothing else ends with all of them. */
  lemma {:induction false} GrowsByNew(f: nat -> seq<Signer>, start: seq<Signer>, bulk: seq<Option<Signer>>, n: nat)
    requires n <= |bulk|
    requires forall i :: 0 <= i < |bulk| ==> f(i + 1) == if IsNew(start, bulk, i) then f(i) + [bulk[i].value] else f(i)
    ensures f(n) == f(0) + NewEntries(start, bulk, n)
  {
    if n > 0 { GrowsByNew(f, start, bulk, n - 1); }
  }

  lemma {:induction false} FirstsByPosition(start: seq<Signer>, bulk: seq<Option<Signer>>)
    ensures FirstOccurrences(start + Flatten(bulk)) == FirstOccurrences(start) + NewEntries(start, bulk, |bulk|)
  {
    var f := (i: nat) => if i <= |bulk| then FirstOccurrences(start + Flatten(bulk[..i])) else [];
    forall i | 0 <= i < |bulk|
      ensures f(i + 1) == if IsNew(start, bulk, i) then f(i) + [bulk[i].value] else f(i)
    {
      NewEntriesMore(start, bulk, i, f(i));
    }
    GrowsByNew(f, start, bulk, |bulk|);
    assert bulk[..|bulk|] == bulk && start + Flatten(bulk[..0]) == start;
  }

  /**
   * The signers of a command by position: the default signer first if an entry is absent, and then the
   * entries that are given and whose key neither an earlier entry nor that default signer has, in order.
   */
  lemma UniqueByPosition(default: Option<Signer>, bulk: seq<Option<Signer>>)
    ensures var start := if SomeAbsent(bulk) && default.Some? then [default.value] else [];
            FirstOccurrences(Candidates(default, bulk)) == start + NewEntries(start, bulk, |bulk|)
  {
    var start := if SomeAbsent(bulk) && default.Some? then [default.value] else [];
    FirstsByPosition(start, bulk);
    assert DistinctKeys(start);
    DistinctUnchanged(start);
  }

  // ---------------------------------------------------------------- indices

  /** The position of the first signer with the key. */
  function PositionOf(signers: seq<Signer>, key: Pubkey): (r: Option<nat>)
    ensures r.Some? <==> HasKey(signers, key)
    ensures r.Some? ==> r.value < |signers| && signers[r.value].pubkey == key
  {
    if signers == [] then None
    else if signers[0].pubkey == key then Some(0)
    else
      var r := PositionOf(signers[1..], key);
      assert HasKey(signers, key) ==> HasKey(signers[1..], key) by {
        if HasKey(signers, key) {
          var i :| 0 <= i < |signers| && signers[i].pubkey == key;
          assert signers[1..][i - 1].pubkey == key;
        }
      }
      if r.Some? then Some(r.value + 1) else None
  }

  function KeyOf(role: Option<Signer>): Option<Pubkey>
  {
    if role.Some? then Some(role.value.pubkey) else None
  }

  /** `index_of`: without a key it is the first signer. */
  function IndexOf(signers: seq<Signer>, key: Option<Pubkey>): Option<nat>
  {
    if key.Some? then PositionOf(signers, key.value) else Some(0)
  }

  /** The index names an existing signer: the role's own, or the default one if the role is absent. */
  ghost predicate PointsAt(signers: seq<Signer>, index: nat, role: Option<Signer>, default: Option<Signer>)
  {
    && index < |signers|
    && (role.Some? ==> signers[index].pubkey == role.value.pubkey)
    && (role.None? ==> default.Some? && signers[index] == default.value)
  }

  lemma {:induction false} FlattenHasKey(bulk: seq<Option<Signer>>, key: Pubkey)
    ensures HasKey(Flatten(bulk), key) <==> exists i :: 0 <= i < |bulk| && bulk[i].Some? && bulk[i].value.pubkey == key
  {
    if bulk != [] {
      var n := |bulk| - 1;
      FlattenHasKey(bulk[..n], key);
      if bulk[n].Some? { HasKeyAppend(Flatten(bulk[..n]), bulk[n].value, key); }
      assert forall i :: 0 <= i < n ==> bulk[..n][i] == bulk[i];
    }
  }

  /** A role that was put in the list always gets an index, and the right one. */
  lemma ListedRoleResolves(default: Option<Signer>, bulk: seq<Option<Signer>>, role: Option<Signer>)
    requires role in bulk && (SomeAbsent(bulk) ==> default.Some?)
    ensures var signers := FirstOccurrences(Candidates(default, bulk));
            var index := IndexOf(signers, KeyOf(role));
            index.Some? && PointsAt(signers, index.value, role, default)
  {
    var all := Candidates(default, bulk);
    var i :| 0 <= i < |bulk| && bulk[i] == role;
    if role.Some? {
      FlattenHasKey(bulk, role.value.pubkey);
      CandidatesHasKey(default, bulk, role.value.pubkey);
      FirstOccurrencesSameKeys(all, role.value.pubkey);
    } else {
      FirstStaysFirst(all);
    }
  }

  /** The keys available to a command: those listed, and the default key if an entry is absent. */
  ghost predicate Available(default: Option<Signer>, bulk: seq<Option<Signer>>, key: Pubkey)
  {
    || (exists i :: 0 <= i < |bulk| && bulk[i].Some? && bulk[i].value.pubkey == key)
    || (SomeAbsent(bulk) && default.Some? && default.value.pubkey == key)
  }

  lemma CandidatesHasKey(default: Option<Signer>, bulk: seq<Option<Signer>>, key: Pubkey)
    ensures HasKey(Candidates(default, bulk), key) <==> Available(default, bulk, key)
  {
    var flat, all := Flatten(bulk), Candidates(default, bulk);
    FlattenHasKey(bulk, key);
    if SomeAbsent(bulk) && default.Some? {
      assert all[0] == default.value;
      assert forall i :: 0 <= i < |flat| ==> all[i + 1] == flat[i];
      assert forall i :: 0 < i < |all| ==> all[i] == flat[i - 1];
    } else {
      assert all == flat;
    }
  }

  /** Any other key gets an index exactly when it is available all the same. */
  lemma KeyResolvesIffAvailable(default: Option<Signer>, bulk: seq<Option<Signer>>, key: Pubkey)
    ensures IndexOf(FirstOccurrences(Candidates(default, bulk)), Some(key)).Some? <==> Available(default, bulk, key)
  {
    CandidatesHasKey(default, bulk, key);
    FirstOccurrencesSameKeys(Candidates(default, bulk), key);
  }
}
