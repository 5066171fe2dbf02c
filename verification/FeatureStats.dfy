/** The stake and RPC share of each feature set, and the 95% bar for activating a feature. */
module FeatureStats {
  import opened Prelude
  import opened MapSums

  type NodeId = nat
  type FeatureSet = nat

  datatype Node = Node(id: NodeId, featureSet: Option<FeatureSet>, isRpc: bool)

  datatype VoteAccount = VoteAccount(node: NodeId, stake: nat)

  datatype Entry = Entry(stake: nat, rpcNodes: nat)

  datatype Stats = Stats(entries: map<FeatureSet, Entry>, totalStake: nat, totalRpc: nat)

  /** A node that reports no feature set counts for set zero. */
  function SetOf(n: Node): FeatureSet
  {
    if n.featureSet.Some? then n.featureSet.value else 0
  }

  function TotalOf(accounts: seq<VoteAccount>): nat
  {
    if accounts == [] then 0 else TotalOf(accounts[..|accounts| - 1]) + accounts[|accounts| - 1].stake
  }

  /** Stake by node: of several vote accounts with one node key the last is kept. */
  function StakeByNode(accounts: seq<VoteAccount>): map<NodeId, nat>
  {
    if accounts == [] then map[]
    else var last := accounts[|accounts| - 1]; StakeByNode(accounts[..|accounts| - 1])[last.node := last.stake]
  }

  lemma {:induction false} StakeByNodeAtMostTotal(accounts: seq<VoteAccount>)
    ensures Sum(StakeByNode(accounts)) <= TotalOf(accounts)
  {
    if accounts != [] {
      var init, last := accounts[..|accounts| - 1], accounts[|accounts| - 1];
      StakeByNodeAtMostTotal(init);
      SumUpdate(StakeByNode(init), last.node, last.stake);
    }
  }

  /** The stake of the nodes of one feature set. */
  function StakeOfSet(nodes: seq<Node>, stakes: map<NodeId, nat>, features: FeatureSet): nat
  {
    if nodes == [] then 0
    else
      var last := nodes[|nodes| - 1];
      StakeOfSet(nodes[..|nodes| - 1], stakes, features) + (if SetOf(last) == features then Get(stakes, last.id) else 0)
  }

  function RpcOfSet(nodes: seq<Node>, features: FeatureSet): nat
  {
    if nodes == [] then 0
    else
      var last := nodes[|nodes| - 1];
      RpcOfSet(nodes[..|nodes| - 1], features) + (if SetOf(last) == features && last.isRpc then 1 else 0)
  }

  function StakeOfAll(nodes: seq<Node>, stakes: map<NodeId, nat>): nat
  {
    if nodes == [] then 0
    else StakeOfAll(nodes[..|nodes| - 1], stakes) + Get(stakes, nodes[|nodes| - 1].id)
  }

  function RpcOfAll(nodes: seq<Node>): nat
  {
    if nodes == [] then 0
    else RpcOfAll(nodes[..|nodes| - 1]) + (if nodes[|nodes| - 1].isRpc then 1 else 0)
  }

  ghost function Stakes(entries: map<FeatureSet, Entry>): map<FeatureSet, nat>
  {
    map f | f in entries :: entries[f].stake
  }

  ghost function Rpcs(entries: map<FeatureSet, Entry>): map<FeatureSet, nat>
  {
    map f | f in entries :: entries[f].rpcNodes
  }

  ghost predicate StakesTallied(nodes: seq<Node>, stakes: map<NodeId, nat>, shares: map<FeatureSet, nat>)
  {
    && (forall f :: Get(shares, f) == StakeOfSet(nodes, stakes, f))
    && Sum(shares) == StakeOfAll(nodes, stakes)
  }

  ghost predicate RpcsTallied(nodes: seq<Node>, shares: map<FeatureSet, nat>)
  {
    && (forall f :: Get(shares, f) == RpcOfSet(nodes, f))
    && Sum(shares) == RpcOfAll(nodes)
  }

  /** The entries hold the share of every feature set, and the shares add up to all nodes. */
  ghost predicate Tallied(nodes: seq<Node>, stakes: map<NodeId, nat>, entries: map<FeatureSet, Entry>)
  {
    StakesTallied(nodes, stakes, Stakes(entries)) && RpcsTallied(nodes, Rpcs(entries))
  }

  function EntryFor(entries: map<FeatureSet, Entry>, f: FeatureSet): Entry
  {
    if f in entries then entries[f] else Entry(0, 0)
  }

  lemma TallyStake(nodes: seq<Node>, stakes: map<NodeId, nat>, shares: map<FeatureSet, nat>, n: Node)
    requires StakesTallied(nodes, stakes, shares)
    ensures StakesTallied(nodes + [n], stakes, Bump(shares, SetOf(n), Get(stakes, n.id)))
  {
    var all := nodes + [n];
    assert all[..|all| - 1] == nodes && all[|all| - 1] == n;
    SumBump(shares, SetOf(n), Get(stakes, n.id));
    forall g
      ensures Get(Bump(shares, SetOf(n), Get(stakes, n.id)), g) == StakeOfSet(all, stakes, g)
    {
      assert Get(shares, g) == StakeOfSet(nodes, stakes, g);
    }
  }

  lemma TallyRpc(nodes: seq<Node>, shares: map<FeatureSet, nat>, n: Node)
    requires RpcsTallied(nodes, shares)
    ensures RpcsTallied(nodes + [n], Bump(shares, SetOf(n), if n.isRpc then 1 else 0))
  {
    var all := nodes + [n];
    assert all[..|all| - 1] == nodes && all[|all| - 1] == n;
    SumBump(shares, SetOf(n), if n.isRpc then 1 else 0);
    forall g
      ensures Get(Bump(shares, SetOf(n), if n.isRpc then 1 else 0), g) == RpcOfSet(all, g)
    {
      assert Get(shares, g) == RpcOfSet(nodes, g);
    }
  }

  lemma SharesAfter(entries: map<FeatureSet, Entry>, f: FeatureSet, stake: nat, rpc: nat, e: Entry)
    requires e == Entry(EntryFor(entries, f).stake + stake, EntryFor(entries, f).rpcNodes + rpc)
    ensures Stakes(entries[f := e]) == Bump(Stakes(entries), f, stake)
    ensures Rpcs(entries[f := e]) == Bump(Rpcs(entries), f, rpc)
  {
  }

  lemma TallyOne(
    nodes: seq<Node>, stakes: map<NodeId, nat>, entries: map<FeatureSet, Entry>, n: Node, e: Entry)
    requires Tallied(nodes, stakes, entries)
    requires var was := EntryFor(entries, SetOf(n));
             e == Entry(was.stake + Get(stakes, n.id), was.rpcNodes + (if n.isRpc then 1 else 0))
    ensures Tallied(nodes + [n], stakes, entries[SetOf(n) := e])
  {
    TallyStake(nodes, stakes, Stakes(entries), n);
    TallyRpc(nodes, Rpcs(entries), n);
    SharesAfter(entries, SetOf(n), Get(stakes, n.id), if n.isRpc then 1 else 0, e);
  }

  /** Collect the stakes of the current accounts by node, adding to the total on the way. */
  method CollectStakes(
    current: seq<VoteAccount>, delinquentStake: nat) returns (stakes: map<NodeId, nat>, totalStake: nat)
    ensures stakes == StakeByNode(current) && totalStake == delinquentStake + TotalOf(current)
  {
    stakes, totalStake := map[], delinquentStake;
    var i := 0;
    while i < |current|
      invariant i <= |current| && totalStake == delinquentStake + TotalOf(current[..i])
          && stakes == StakeByNode(current[..i])
    {
      assert current[..i + 1][..i] == current[..i];
      totalStake := totalStake + current[i].stake;
      stakes := stakes[current[i].node := current[i].stake];
      i := i + 1;
    }
    assert current[..|current|] == current;
  }

  /** Count one node into the entry of its feature set. */
  method CountNode(ghost nodes: seq<Node>, stakes: map<NodeId, nat>, entries: map<FeatureSet, Entry>, n: Node)
    returns (after: map<FeatureSet, Entry>)
    requires Tallied(nodes, stakes, entries)
    ensures Tallied(nodes + [n], stakes, after)
  {
    var e := EntryFor(entries, SetOf(n));
    if n.id in stakes { e := e.(stake := e.stake + stakes[n.id]); }
    if n.isRpc { e := e.(rpcNodes := e.rpcNodes + 1); }
    TallyOne(nodes, stakes, entries, n, e);
    after := entries[SetOf(n) := e];
  }

  method FeatureSetStats(nodes: seq<Node>, current: seq<VoteAccount>, delinquent: seq<VoteAccount>) returns (r: Stats)
    ensures Tallied(nodes, StakeByNode(current), r.entries)
    ensures r.totalStake == TotalOf(delinquent) + TotalOf(current) && r.totalRpc == RpcOfAll(nodes)
  {
    var stakes, totalStake := CollectStakes(current, TotalOf(delinquent));
    var entries: map<FeatureSet, Entry>, totalRpc: nat := map[], 0;
    assert Stakes(entries) == map[] && Rpcs(entries) == map[];
    var j := 0;
    while j < |nodes|
      invariant j <= |nodes| && Tallied(nodes[..j], stakes, entries) && totalRpc == RpcOfAll(nodes[..j])
    {
      entries := CountNode(nodes[..j], stakes, entries, nodes[j]);
      if nodes[j].isRpc { totalRpc := totalRpc + 1; }
      assert nodes[..j + 1] == nodes[..j] + [nodes[j]] && nodes[..j + 1][..j] == nodes[..j];
      j := j + 1;
    }
    assert nodes[..|nodes|] == nodes;
    r := Stats(entries, totalStake, totalRpc);
  }

  // ---------------------------------------------------------------- the bar

  ghost predicate DistinctIds(nodes: seq<Node>)
  {
    forall i, j :: 0 <= i < j < |nodes| ==> nodes[i].id != nodes[j].id
  }

  lemma {:induction false} StakeOfAllWithout(nodes: seq<Node>, stakes: map<NodeId, nat>, id: NodeId)
    requires forall i :: 0 <= i < |nodes| ==> nodes[i].id != id
    ensures StakeOfAll(nodes, stakes - {id}) == StakeOfAll(nodes, stakes)
  {
    if nodes != [] { StakeOfAllWithout(nodes[..|nodes| - 1], stakes, id); }
  }

  /** Nodes with different ids never account for more than the stake there is. */
  lemma {:induction false} StakeOfAllAtMostSum(nodes: seq<Node>, stakes: map<NodeId, nat>)
    requires DistinctIds(nodes)
    ensures StakeOfAll(nodes, stakes) <= Sum(stakes)
    decreases |nodes|
  {
    if nodes != [] {
      var init, last := nodes[..|nodes| - 1], nodes[|nodes| - 1];
      if last.id in stakes {
        StakeOfAllWithout(init, stakes, last.id);
        StakeOfAllAtMostSum(init, stakes - {last.id});
        SumRemove(stakes, last.id);
      } else {
        StakeOfAllAtMostSum(init, stakes);
      }
    }
  }

  /** At least 95 percent of a positive total; a share of nothing is not a number and never passes. */
  predicate Meets95(part: nat, total: nat)
  {
    total > 0 && 100 * part >= 95 * total
  }

  predicate StakeAllowed(r: Stats, f: FeatureSet)
  {
    f in r.entries && Meets95(r.entries[f].stake, r.totalStake)
  }

  predicate RpcAllowed(r: Stats, f: FeatureSet)
  {
    f in r.entries && Meets95(r.entries[f].rpcNodes, r.totalRpc)
  }

  lemma SetOfMeans(n: Node, f: FeatureSet)
    ensures SetOf(n) == f <==> n.featureSet == Some(f) || (n.featureSet.None? && f == 0)
  {
  }

  /** Of several vote accounts with one node key the last counts, and no other node has a stake. */
  lemma {:induction false} LastAccountCounts(accounts: seq<VoteAccount>, node: NodeId)
    ensures node in StakeByNode(accounts) <==> exists i :: 0 <= i < |accounts| && accounts[i].node == node
    ensures node in StakeByNode(accounts) ==>
              exists i :: && 0 <= i < |accounts| && accounts[i] == VoteAccount(node, StakeByNode(accounts)[node])
                          && forall j :: i < j < |accounts| ==> accounts[j].node != node
  {
    if accounts != [] {
      var n := |accounts| - 1;
      LastAccountCounts(accounts[..n], node);
      assert forall i :: 0 <= i < n ==> accounts[..n][i] == accounts[i];
      if accounts[n].node == node {
        assert accounts[n] == VoteAccount(node, StakeByNode(accounts)[node]);
      }
    }
  }

  /** A set passes exactly when its nodes hold 19 of every 20 of the stake there is, or are 19 of every 20 RPC nodes. */
  lemma PassesIff(nodes: seq<Node>, current: seq<VoteAccount>, delinquent: seq<VoteAccount>, r: Stats, f: FeatureSet)
    requires Tallied(nodes, StakeByNode(current), r.entries)
    requires r.totalStake == TotalOf(delinquent) + TotalOf(current) && r.totalRpc == RpcOfAll(nodes)
    ensures StakeAllowed(r, f) <==>
              r.totalStake > 0 && 20 * StakeOfSet(nodes, StakeByNode(current), f) >= 19 * r.totalStake
    ensures RpcAllowed(r, f) <==>
              RpcOfAll(nodes) > 0 && 20 * RpcOfSet(nodes, f) >= 19 * RpcOfAll(nodes)
  {
    assert Get(Stakes(r.entries), f) == StakeOfSet(nodes, StakeByNode(current), f);
    assert Get(Rpcs(r.entries), f) == RpcOfSet(nodes, f);
  }

  /** In particular the set that all RPC nodes run passes on them, if there are any. */
  lemma {:induction false} AllRpcNodesAgree(nodes: seq<Node>, f: FeatureSet)
    requires forall i :: 0 <= i < |nodes| && nodes[i].isRpc ==> SetOf(nodes[i]) == f
    ensures RpcOfSet(nodes, f) == RpcOfAll(nodes)
  {
    if nodes != [] { AllRpcNodesAgree(nodes[..|nodes| - 1], f); }
  }

  lemma TwoSharesCannotBothMeet(
    shares: map<FeatureSet, nat>, total: nat, f: FeatureSet, g: FeatureSet)
    requires f in shares && g in shares && Sum(shares) <= total
    requires Meets95(shares[f], total) && Meets95(shares[g], total)
    ensures f == g
  {
    if f != g { SumAtLeastTwo(shares, f, g); }
  }

  /** The stake shares stay within the total for every set of vote accounts exactly when no id is listed twice. */
  lemma SharesWithinTotalIffDistinctIds(nodes: seq<Node>)
    ensures (forall current :: StakeOfAll(nodes, StakeByNode(current)) <= TotalOf(current)) <==> DistinctIds(nodes)
  {
    if DistinctIds(nodes) {
      forall current ensures StakeOfAll(nodes, StakeByNode(current)) <= TotalOf(current) {
        StakeOfAllAtMostSum(nodes, StakeByNode(current));
        StakeByNodeAtMostTotal(current);
      }
    } else {
      var i, j :| 0 <= i < j < |nodes| && nodes[i].id == nodes[j].id;
      OneAccount(nodes[i].id, 1);
      CountedTwice(nodes, i, j);
      assert StakeOfAll(nodes, StakeByNode([VoteAccount(nodes[i].id, 1)])) > TotalOf([VoteAccount(nodes[i].id, 1)]);
    }
  }

  lemma OneAccount(id: NodeId, stake: nat)
    ensures StakeByNode([VoteAccount(id, stake)]) == map[id := stake] && TotalOf([VoteAccount(id, stake)]) == stake
  {
    assert [VoteAccount(id, stake)][..0] == [];
  }

  lemma {:induction false} CountedTwice(nodes: seq<Node>, i: nat, j: nat)
    requires i < j < |nodes| && nodes[i].id == nodes[j].id
    ensures StakeOfAll(nodes, map[nodes[i].id := 1]) >= 2
  {
    var init, stakes := nodes[..|nodes| - 1], map[nodes[i].id := 1];
    if j < |nodes| - 1 { CountedTwice(init, i, j); } else { CountedOnce(init, stakes, i); }
  }

  lemma {:induction false} CountedOnce(nodes: seq<Node>, stakes: map<NodeId, nat>, i: nat)
    requires i < |nodes|
    ensures StakeOfAll(nodes, stakes) >= Get(stakes, nodes[i].id)
  {
    if i < |nodes| - 1 { CountedOnce(nodes[..|nodes| - 1], stakes, i); }
  }

  // ---------------------------------------------------------------- when one set at most passes

  /** How often an id is listed under a feature set. */
  function Listings(nodes: seq<Node>, id: NodeId, features: FeatureSet): nat
  {
    if nodes == [] then 0
    else
      var last := nodes[|nodes| - 1];
      Listings(nodes[..|nodes| - 1], id, features) + (if last.id == id && SetOf(last) == features then 1 else 0)
  }

  lemma {:induction false} ListedAtLeastOnce(nodes: seq<Node>, i: nat)
    requires i < |nodes|
    ensures Listings(nodes, nodes[i].id, SetOf(nodes[i])) >= 1
  {
    if i < |nodes| - 1 { ListedAtLeastOnce(nodes[..|nodes| - 1], i); }
  }

  lemma {:induction false} ListedSomewhere(nodes: seq<Node>, id: NodeId, f: FeatureSet) returns (i: nat)
    requires Listings(nodes, id, f) > 0
    ensures i < |nodes| && nodes[i].id == id && SetOf(nodes[i]) == f
  {
    var last := nodes[|nodes| - 1];
    if last.id == id && SetOf(last) == f {
      i := |nodes| - 1;
    } else {
      i := ListedSomewhere(nodes[..|nodes| - 1], id, f);
    }
  }

  lemma OneMoreListing(l: nat, n: nat)
    ensures (l + 1) * n == l * n + n
  {
  }

  /** A node counts for its set as often as it is listed there. */
  lemma {:induction false} StakeOfSetSplit(nodes: seq<Node>, stakes: map<NodeId, nat>, id: NodeId, f: FeatureSet)
    requires id in stakes
    ensures StakeOfSet(nodes, stakes, f) == StakeOfSet(nodes, stakes - {id}, f) + Listings(nodes, id, f) * stakes[id]
  {
    if nodes != [] {
      var init := nodes[..|nodes| - 1];
      StakeOfSetSplit(init, stakes, id, f);
      OneMoreListing(Listings(init, id, f), stakes[id]);
    }
  }

  lemma {:induction false} NoStakeNoShare(nodes: seq<Node>, stakes: map<NodeId, nat>, f: FeatureSet)
    requires stakes.Keys == {}
    ensures StakeOfSet(nodes, stakes, f) == 0
  {
    if nodes != [] { NoStakeNoShare(nodes[..|nodes| - 1], stakes, f); }
  }

  lemma AddProduct(a: nat, most: nat, n: nat, m: nat)
    requires a <= most
    ensures a * n + most * m <= most * (n + m)
  {
    assert most * (n + m) == most * n + most * m;
    assert (most - a) * n >= 0;
  }

  lemma ShareStep(nodes: seq<Node>, stakes: map<NodeId, nat>, f: FeatureSet, most: nat, id: NodeId)
    requires id in stakes && Listings(nodes, id, f) <= most
    requires StakeOfSet(nodes, stakes - {id}, f) <= most * Sum(stakes - {id})
    ensures StakeOfSet(nodes, stakes, f) <= most * Sum(stakes)
  {
    StakeOfSetSplit(nodes, stakes, id, f);
    SumRemove(stakes, id);
    AddProduct(Listings(nodes, id, f), most, stakes[id], Sum(stakes - {id}));
  }

  /** A set whose ids are listed at most `most` times has at most that many times the stake. */
  lemma {:induction false} ShareAtMost(nodes: seq<Node>, stakes: map<NodeId, nat>, f: FeatureSet, most: nat)
    requires forall id :: Listings(nodes, id, f) <= most
    ensures StakeOfSet(nodes, stakes, f) <= most * Sum(stakes)
    decreases |stakes|
  {
    if stakes.Keys == {} {
      NoStakeNoShare(nodes, stakes, f);
      SumOfNone(stakes);
    } else {
      var id :| id in stakes.Keys;
      RemoveSmaller(stakes, id);
      ShareAtMost(nodes, stakes - {id}, f, most);
      ShareStep(nodes, stakes, f, most, id);
    }
  }

  /** Stake of ids that are not listed under the set does not matter. */
  lemma {:induction false} StakeOfSetWithout(
    nodes: seq<Node>, stakes: map<NodeId, nat>, ids: set<NodeId>, f: FeatureSet)
    requires forall i :: 0 <= i < |nodes| && SetOf(nodes[i]) == f ==> nodes[i].id !in ids
    ensures StakeOfSet(nodes, stakes - ids, f) == StakeOfSet(nodes, stakes, f)
  {
    if nodes != [] { StakeOfSetWithout(nodes[..|nodes| - 1], stakes, ids, f); }
  }

  /** An id that is listed most often under the set. */
  lemma MostListed(nodes: seq<Node>, f: FeatureSet) returns (i: nat)
    requires ListsSomeone(nodes, f)
    ensures i < |nodes| && SetOf(nodes[i]) == f
    ensures forall id :: Listings(nodes, id, f) <= Listings(nodes, nodes[i].id, f)
  {
    i :| i < |nodes| && SetOf(nodes[i]) == f;
    var j := 0;
    while j < |nodes|
      invariant j <= |nodes| && i < |nodes| && SetOf(nodes[i]) == f
      invariant forall k :: 0 <= k < j && SetOf(nodes[k]) == f ==>
          Listings(nodes, nodes[k].id, f) <= Listings(nodes, nodes[i].id, f)
    {
      if SetOf(nodes[j]) == f && Listings(nodes, nodes[j].id, f) > Listings(nodes, nodes[i].id, f) { i := j; }
      j := j + 1;
    }
    forall id ensures Listings(nodes, id, f) <= Listings(nodes, nodes[i].id, f) {
      if Listings(nodes, id, f) > 0 { var k := ListedSomewhere(nodes, id, f); }
    }
  }

  ghost predicate ListsSomeone(nodes: seq<Node>, f: FeatureSet)
  {
    exists i :: 0 <= i < |nodes| && SetOf(nodes[i]) == f
  }

  /** Two ids listed a and b times cannot both reach 95 percent for their sets. */
  predicate Apart(a: nat, b: nat)
  {
    95 * (a + b) > 100 * (a * b)
  }

  /** No id is listed under two sets, and ids of different sets are not repeated too often. */
  ghost predicate SetsApart(nodes: seq<Node>)
  {
    forall i, j :: 0 <= i < |nodes| && 0 <= j < |nodes| && SetOf(nodes[i]) != SetOf(nodes[j]) ==>
      && nodes[i].id != nodes[j].id
      && Apart(Listings(nodes, nodes[i].id, SetOf(nodes[i])), Listings(nodes, nodes[j].id, SetOf(nodes[j])))
  }

  /** Both sets pass the bar on stake. */
  ghost predicate BothPass(
    nodes: seq<Node>, current: seq<VoteAccount>, delinquent: seq<VoteAccount>, f: FeatureSet, g: FeatureSet)
  {
    var stakes, total := StakeByNode(current), TotalOf(delinquent) + TotalOf(current);
    Meets95(StakeOfSet(nodes, stakes, f), total) && Meets95(StakeOfSet(nodes, stakes, g), total)
  }

  /** At most one set passes on stake, whatever the vote accounts, exactly when the sets are apart. */
  lemma AtMostOneByStakeIffSetsApart(nodes: seq<Node>)
    ensures (forall current, delinquent, f, g :: BothPass(nodes, current, delinquent, f, g) ==> f == g)
       <==> SetsApart(nodes)
  {
    if SetsApart(nodes) {
      forall current, delinquent, f, g | BothPass(nodes, current, delinquent, f, g) ensures f == g {
        ApartSetsDoNotBothPass(nodes, current, delinquent, f, g);
      }
    } else {
      var i, j :| 0 <= i < |nodes| && 0 <= j < |nodes| && SetOf(nodes[i]) != SetOf(nodes[j])
        && (nodes[i].id == nodes[j].id
            || !Apart(Listings(nodes, nodes[i].id, SetOf(nodes[i])), Listings(nodes, nodes[j].id, SetOf(nodes[j]))));
      var current := BothCanPass(nodes, i, j);
    }
  }

  lemma {:induction false} NothingListedNothingStaked(nodes: seq<Node>, stakes: map<NodeId, nat>, f: FeatureSet)
    requires !ListsSomeone(nodes, f)
    ensures StakeOfSet(nodes, stakes, f) == 0
  {
    if nodes != [] {
      assert forall i :: 0 <= i < |nodes| - 1 ==> nodes[..|nodes| - 1][i] == nodes[i];
      NothingListedNothingStaked(nodes[..|nodes| - 1], stakes, f);
    }
  }

  /** The stake of two apart sets, weighted with their listings, fits into the total. */
  lemma TwoShares(
    nodes: seq<Node>, stakes: map<NodeId, nat>, f: FeatureSet, g: FeatureSet, a: nat, b: nat)
    returns (mine: nat, yours: nat)
    requires forall i, j :: 0 <= i < |nodes| && 0 <= j < |nodes| && SetOf(nodes[i]) == f && SetOf(nodes[j]) == g ==>
        nodes[i].id != nodes[j].id
    requires (forall id :: Listings(nodes, id, f) <= a) && (forall id :: Listings(nodes, id, g) <= b)
    ensures mine + yours == Sum(stakes)
    ensures StakeOfSet(nodes, stakes, f) <= a * mine && StakeOfSet(nodes, stakes, g) <= b * yours
  {
    var ids := set i | 0 <= i < |nodes| && SetOf(nodes[i]) == f :: nodes[i].id;
    var ours, others := stakes - (stakes.Keys - ids), stakes - ids;
    assert stakes == ours + others;
    SumUnion(ours, others);
    StakeOfSetWithout(nodes, stakes, stakes.Keys - ids, f);
    StakeOfSetWithout(nodes, stakes, ids, g);
    ShareAtMost(nodes, ours, f, a);
    ShareAtMost(nodes, others, g, b);
    mine, yours := Sum(ours), Sum(others);
  }

  lemma TimesBoth(total: nat, a: nat, mine: nat, b: nat)
    requires 95 * total <= 100 * (a * mine)
    ensures 95 * (total * b) <= 100 * ((a * b) * mine)
  {
    assert (100 * (a * mine) - 95 * total) * b >= 0;
    assert (a * mine) * b == (a * b) * mine;
  }

  lemma TimesTotal(p: nat, q: nat, total: nat)
    requires 0 < total && 95 * p > 100 * q
    ensures 95 * (total * p) > 100 * (q * total)
  {
    assert (95 * p - 100 * q) * total > 0;
  }

  lemma Distribute(q: nat, mine: nat, yours: nat, total: nat)
    requires mine + yours <= total
    ensures q * mine + q * yours <= q * total
  {
    assert q * (total - mine - yours) >= 0;
  }

  /** The arithmetic of the bar: both shares reaching it means the listings are not apart. */
  lemma BothReachTheBar(a: nat, b: nat, mine: nat, yours: nat, total: nat)
    requires mine + yours <= total && 0 < total
    requires 95 * total <= 100 * (a * mine) && 95 * total <= 100 * (b * yours)
    ensures !Apart(a, b)
  {
    TimesBoth(total, a, mine, b);
    TimesBoth(total, b, yours, a);
    assert b * a == a * b;
    Distribute(a * b, mine, yours, total);
    assert total * b + total * a == total * (a + b);
    if Apart(a, b) { TimesTotal(a + b, a * b, total); }
  }

  lemma ApartSetsDoNotBothPass(
    nodes: seq<Node>, current: seq<VoteAccount>, delinquent: seq<VoteAccount>, f: FeatureSet, g: FeatureSet)
    requires SetsApart(nodes) && BothPass(nodes, current, delinquent, f, g)
    ensures f == g
  {
    var stakes, total := StakeByNode(current), TotalOf(delinquent) + TotalOf(current);
    if !ListsSomeone(nodes, f) { NothingListedNothingStaked(nodes, stakes, f); }
    if !ListsSomeone(nodes, g) { NothingListedNothingStaked(nodes, stakes, g); }
    if f != g {
      var i := MostListed(nodes, f);
      var j := MostListed(nodes, g);
      var a, b := Listings(nodes, nodes[i].id, f), Listings(nodes, nodes[j].id, g);
      var mine, yours := TwoShares(nodes, stakes, f, g, a, b);
      StakeByNodeAtMostTotal(current);
      BothReachTheBar(a, b, mine, yours, total);
    }
  }

  lemma TwoAccounts(x: NodeId, y: NodeId, a: nat, b: nat)
    requires x != y
    ensures StakeByNode([VoteAccount(x, b), VoteAccount(y, a)]) == map[x := b, y := a]
    ensures TotalOf([VoteAccount(x, b), VoteAccount(y, a)]) == a + b
  {
    OneAccount(x, b);
    assert [VoteAccount(x, b), VoteAccount(y, a)][..1] == [VoteAccount(x, b)];
  }

  lemma ListedShare(nodes: seq<Node>, stakes: map<NodeId, nat>, id: NodeId, f: FeatureSet)
    requires id in stakes
    ensures StakeOfSet(nodes, stakes, f) >= Listings(nodes, id, f) * stakes[id]
  {
    StakeOfSetSplit(nodes, stakes, id, f);
  }

  /** Stake on one id that is listed under both sets, or on two ids that are not apart, takes both over the bar. */
  lemma BothCanPass(nodes: seq<Node>, i: nat, j: nat) returns (current: seq<VoteAccount>)
    requires i < |nodes| && j < |nodes|
    requires nodes[i].id == nodes[j].id
          || !Apart(Listings(nodes, nodes[i].id, SetOf(nodes[i])), Listings(nodes, nodes[j].id, SetOf(nodes[j])))
    ensures BothPass(nodes, current, [], SetOf(nodes[i]), SetOf(nodes[j]))
  {
    var x, y, f, g := nodes[i].id, nodes[j].id, SetOf(nodes[i]), SetOf(nodes[j]);
    var a, b := Listings(nodes, x, f), Listings(nodes, y, g);
    ListedAtLeastOnce(nodes, i);
    ListedAtLeastOnce(nodes, j);
    if x == y {
      current := [VoteAccount(x, 1)];
      OneAccount(x, 1);
      ListedShare(nodes, map[x := 1], x, f);
      ListedShare(nodes, map[x := 1], x, g);
    } else {
      current := [VoteAccount(x, b), VoteAccount(y, a)];
      TwoAccounts(x, y, a, b);
      ListedShare(nodes, map[x := b, y := a], x, f);
      ListedShare(nodes, map[x := b, y := a], y, g);
      assert b * a == a * b;
    }
  }

  lemma {:induction false} NotListed(nodes: seq<Node>, id: NodeId, f: FeatureSet)
    requires forall i :: 0 <= i < |nodes| ==> nodes[i].id != id
    ensures Listings(nodes, id, f) == 0
  {
    if nodes != [] { NotListed(nodes[..|nodes| - 1], id, f); }
  }

  lemma {:induction false} DistinctIdsListedOnce(nodes: seq<Node>, id: NodeId, f: FeatureSet)
    requires DistinctIds(nodes)
    ensures Listings(nodes, id, f) <= 1
  {
    if nodes != [] {
      var init, last := nodes[..|nodes| - 1], nodes[|nodes| - 1];
      if last.id == id { NotListed(init, id, f); } else { DistinctIdsListedOnce(init, id, f); }
    }
  }

  /** Nodes with different ids are apart. */
  lemma DistinctIdsAreApart(nodes: seq<Node>)
    requires DistinctIds(nodes)
    ensures SetsApart(nodes)
  {
    forall i, j | 0 <= i < |nodes| && 0 <= j < |nodes| && SetOf(nodes[i]) != SetOf(nodes[j])
      ensures Apart(Listings(nodes, nodes[i].id, SetOf(nodes[i])), Listings(nodes, nodes[j].id, SetOf(nodes[j])))
      ensures nodes[i].id != nodes[j].id
    {
      ListedAtLeastOnce(nodes, i);
      ListedAtLeastOnce(nodes, j);
      DistinctIdsListedOnce(nodes, nodes[i].id, SetOf(nodes[i]));
      DistinctIdsListedOnce(nodes, nodes[j].id, SetOf(nodes[j]));
    }
  }

  /**
   * In the report: RPC counts sum to the total and at most one set passes on them, whatever the ids.
   * With different ids the stake shares stay within the total, even when vote accounts share a node
   * key, and at most one set passes on stake.
   */
  lemma AtMostOneSetPasses(
    nodes: seq<Node>, current: seq<VoteAccount>, delinquent: seq<VoteAccount>, r: Stats, f: FeatureSet, g: FeatureSet)
    requires Tallied(nodes, StakeByNode(current), r.entries)
    requires r.totalStake == TotalOf(delinquent) + TotalOf(current) && r.totalRpc == RpcOfAll(nodes)
    ensures Sum(Rpcs(r.entries)) == r.totalRpc
    ensures RpcAllowed(r, f) && RpcAllowed(r, g) ==> f == g
    ensures DistinctIds(nodes) ==> Sum(Stakes(r.entries)) <= r.totalStake && SetsApart(nodes)
    ensures SetsApart(nodes) && StakeAllowed(r, f) && StakeAllowed(r, g) ==> f == g
  {
    if RpcAllowed(r, f) && RpcAllowed(r, g) { TwoSharesCannotBothMeet(Rpcs(r.entries), r.totalRpc, f, g); }
    if DistinctIds(nodes) {
      SharesWithinTotalIffDistinctIds(nodes);
      DistinctIdsAreApart(nodes);
    }
    if SetsApart(nodes) && StakeAllowed(r, f) && StakeAllowed(r, g) {
      assert Get(Stakes(r.entries), f) == r.entries[f].stake && Get(Stakes(r.entries), g) == r.entries[g].stake;
      ApartSetsDoNotBothPass(nodes, current, delinquent, f, g);
    }
  }

  /** `feature_activation_allowed` for the feature set of this tool. */
  predicate ActivationAllowed(r: Stats, mine: FeatureSet)
  {
    StakeAllowed(r, mine) && RpcAllowed(r, mine)
  }

  /**
   * Tools of two different feature sets are never both allowed to activate, whatever the ids; and the one
   * that all RPC nodes run is allowed exactly when it passes on stake and there are RPC nodes.
   */
  lemma OneToolMayActivate(
    nodes: seq<Node>, current: seq<VoteAccount>, delinquent: seq<VoteAccount>, r: Stats, f: FeatureSet, g: FeatureSet)
    requires Tallied(nodes, StakeByNode(current), r.entries)
    requires r.totalStake == TotalOf(delinquent) + TotalOf(current) && r.totalRpc == RpcOfAll(nodes)
    ensures ActivationAllowed(r, f) && ActivationAllowed(r, g) ==> f == g
    ensures (forall i :: 0 <= i < |nodes| && nodes[i].isRpc ==> SetOf(nodes[i]) == f) ==>
              (ActivationAllowed(r, f) <==> StakeAllowed(r, f) && RpcOfAll(nodes) > 0)
  {
    AtMostOneSetPasses(nodes, current, delinquent, r, f, g);
    if forall i :: 0 <= i < |nodes| && nodes[i].isRpc ==> SetOf(nodes[i]) == f {
      AllRpcNodesAgree(nodes, f);
      assert Get(Rpcs(r.entries), f) == RpcOfSet(nodes, f);
    }
  }

  /** Without different ids it fails: a node listed under two sets gives its whole stake to both. */
  method OneNodeListedTwice() returns (r: Stats)
    ensures StakeAllowed(r, 1) && StakeAllowed(r, 2)
  {
    var nodes := [Node(7, Some(1), false), Node(7, Some(2), false)];
    var current := [VoteAccount(7, 10)];
    r := FeatureSetStats(nodes, current, []);
    assert nodes[..1] == [nodes[0]] && nodes[..1][..0] == [] && current[..0] == [];
    var stakes := StakeByNode(current);
    assert stakes == map[7 := 10];
    assert StakeOfSet(nodes[..1], stakes, 1) == 10 && StakeOfSet(nodes[..1], stakes, 2) == 0;
    assert StakeOfSet(nodes, stakes, 1) == 10 && StakeOfSet(nodes, stakes, 2) == 10;
    assert Get(Stakes(r.entries), 1) == 10 && Get(Stakes(r.entries), 2) == 10;
  }
}
