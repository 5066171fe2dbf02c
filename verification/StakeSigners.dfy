/**
 * The signer bookkeeping of the stake commands: which signers each parser lists, and which
 * index every role receives. `Panic` is an index that is unwrapped although the key is missing.
 */
module StakeSigners {
  import opened Prelude
  import opened Signers

  datatype Outcome<T> = Parsed(command: T, signers: seq<Signer>) | NoDefault | Panic

  /** The nonce arguments. Argument parsing only lets an authority through together with an account. */
  datatype Nonce = Nonce(account: Option<Pubkey>, authority: Option<Signer>)

  predicate AuthorityRequiresAccount(nonce: Nonce)
  {
    nonce.authority.Some? ==> nonce.account.Some?
  }

  function WithNonce(bulk: seq<Option<Signer>>, nonce: Nonce): seq<Option<Signer>>
  {
    if nonce.account.Some? then bulk + [nonce.authority] else bulk
  }

  function WithSome(bulk: seq<Option<Signer>>, extra: Option<Signer>): seq<Option<Signer>>
  {
    if extra.Some? then bulk + [extra] else bulk
  }

  /** A nonce authority that was not listed, and whose key no other signer happens to have. */
  ghost predicate Stranded(default: Option<Signer>, bulk: seq<Option<Signer>>, nonce: Nonce)
  {
    nonce.account.None? && nonce.authority.Some? && !Available(default, bulk, nonce.authority.value.pubkey)
  }

  /** What every parser does with its list of signers: it fails in exactly these two ways. */
  ghost predicate Accounted<T>(r: Outcome<T>, default: Option<Signer>, bulk: seq<Option<Signer>>, nonce: Nonce)
  {
    && (r.NoDefault? <==> SomeAbsent(bulk) && default.None?)
    && (r.Panic? <==> !(SomeAbsent(bulk) && default.None?) && Stranded(default, bulk, nonce))
    && (r.Parsed? ==> r.signers == FirstOccurrences(Candidates(default, bulk)) && DistinctKeys(r.signers))
    && (AuthorityRequiresAccount(nonce) ==> !r.Panic?)
  }

  /** The nonce authority's index: its own key if it has one; the default signer's if a nonce needs one. */
  ghost predicate NonceIndex(signers: seq<Signer>, index: nat, nonce: Nonce, default: Option<Signer>)
  {
    && index < |signers|
    && (nonce.authority.Some? || nonce.account.Some? ==> PointsAt(signers, index, nonce.authority, default))
  }

  lemma NonceResolves(default: Option<Signer>, bulk: seq<Option<Signer>>, nonce: Nonce)
    requires bulk != [] && (SomeAbsent(bulk) ==> default.Some?)
    requires nonce.account.Some? ==> nonce.authority in bulk
    ensures var signers := FirstOccurrences(Candidates(default, bulk));
            var index := IndexOf(signers, KeyOf(nonce.authority));
            && DistinctKeys(signers)
            && (index.None? <==> Stranded(default, bulk, nonce))
            && (index.Some? ==> NonceIndex(signers, index.value, nonce, default))
  {
    FirstOccurrencesDistinct(Candidates(default, bulk));
    SignersNotEmpty(default, bulk);
    if nonce.account.Some? { ListedRoleResolves(default, bulk, nonce.authority); }
    if nonce.authority.Some? { KeyResolvesIffAvailable(default, bulk, nonce.authority.value.pubkey); }
  }

  lemma SignersNotEmpty(default: Option<Signer>, bulk: seq<Option<Signer>>)
    requires bulk != [] && (SomeAbsent(bulk) ==> default.Some?)
    ensures FirstOccurrences(Candidates(default, bulk)) != []
  {
    if bulk[0].Some? {
      ListedRoleResolves(default, bulk, bulk[0]);
    } else {
      FirstStaysFirst(Candidates(default, bulk));
    }
  }

  // ---------------------------------------------------------------- delegate, merge, deactivate

  datatype AuthorityCommand = AuthorityCommand(stakeAuthority: nat, nonceAuthority: nat, feePayer: nat)

  /** `parse_stake_delegate_stake`, `parse_merge_stake` and `parse_stake_deactivate_stake` keep the same books. */
  method ParseAuthorityCommand(
    default: Option<Signer>, stakeAuthority: Option<Signer>, feePayer: Option<Signer>, nonce: Nonce)
    returns (r: Outcome<AuthorityCommand>)
    ensures Accounted(r, default, WithNonce([stakeAuthority, feePayer], nonce), nonce)
    ensures r.Parsed? ==>
              && PointsAt(r.signers, r.command.stakeAuthority, stakeAuthority, default)
              && PointsAt(r.signers, r.command.feePayer, feePayer, default)
              && NonceIndex(r.signers, r.command.nonceAuthority, nonce, default)
  {
    var bulk := [stakeAuthority, feePayer];
    if nonce.account.Some? { bulk := bulk + [nonce.authority]; }
    var unique := GenerateUniqueSigners(default, bulk);
    if unique.None? { return NoDefault; }
    var signers := unique.value;
    NonceResolves(default, bulk, nonce);
    ListedRoleResolves(default, bulk, stakeAuthority);
    ListedRoleResolves(default, bulk, feePayer);
    var nonceAuthority := IndexOf(signers, KeyOf(nonce.authority));
    if nonceAuthority.None? { return Panic; }
    return Parsed(AuthorityCommand(IndexOf(signers, KeyOf(stakeAuthority)).value, nonceAuthority.value,
                                   IndexOf(signers, KeyOf(feePayer)).value), signers);
  }

  /** A nonce authority of its own, without a nonce account, is not among the signers. */
  method StrangerAsNonceAuthority(default: Signer, authority: Signer) returns (r: Outcome<AuthorityCommand>)
    requires default.pubkey != authority.pubkey
    ensures r == Panic
  {
    r := ParseAuthorityCommand(Some(default), None, None, Nonce(None, Some(authority)));
  }

  // ---------------------------------------------------------------- create

  datatype CreateCommand = CreateCommand(
    stakeAccount: nat, from: nat, feePayer: nat, nonceAuthority: nat, withdrawer: Option<nat>)

  /** A signer argument in a checked command; only a key in the plain one. */
  datatype Party = Party(signer: Option<Signer>, key: Option<Pubkey>)

  /** `signer_of` returns a signer with its own key; an unchecked command asks for the key alone. */
  ghost predicate Consistent(checked: bool, party: Party)
  {
    if checked then party.key == KeyOf(party.signer) else party.signer.None?
  }

  method ParseCreate(
    default: Option<Signer>, feePayer: Option<Signer>, from: Option<Signer>, stakeAccount: Option<Signer>,
    nonce: Nonce, checked: bool, withdrawer: Party) returns (r: Outcome<CreateCommand>)
    requires Consistent(checked, withdrawer)
    ensures Accounted(r, default, WithSome(WithNonce([feePayer, from, stakeAccount], nonce), withdrawer.signer), nonce)
    ensures r.Parsed? ==>
              && PointsAt(r.signers, r.command.stakeAccount, stakeAccount, default)
              && PointsAt(r.signers, r.command.from, from, default)
              && PointsAt(r.signers, r.command.feePayer, feePayer, default)
              && NonceIndex(r.signers, r.command.nonceAuthority, nonce, default)
              && (r.command.withdrawer.Some? <==> checked)
              && (withdrawer.signer.Some? ==>
                  PointsAt(r.signers, r.command.withdrawer.value, withdrawer.signer, default))
              && (checked && withdrawer.signer.None? ==> r.command.withdrawer.value == 0 < |r.signers|)
  {
    var bulk := [feePayer, from, stakeAccount];
    if nonce.account.Some? { bulk := bulk + [nonce.authority]; }
    if withdrawer.signer.Some? { bulk := bulk + [withdrawer.signer]; }
    var unique := GenerateUniqueSigners(default, bulk);
    if unique.None? { return NoDefault; }
    var signers := unique.value;
    assert bulk[0] == feePayer && bulk[1] == from && bulk[2] == stakeAccount;
    assert nonce.account.Some? ==> bulk[3] == nonce.authority;
    NonceResolves(default, bulk, nonce);
    ListedRoleResolves(default, bulk, feePayer);
    ListedRoleResolves(default, bulk, from);
    ListedRoleResolves(default, bulk, stakeAccount);
    if withdrawer.signer.Some? {
      assert bulk[|bulk| - 1] == withdrawer.signer;
      ListedRoleResolves(default, bulk, withdrawer.signer);
    }
    var nonceAuthority := IndexOf(signers, KeyOf(nonce.authority));
    if nonceAuthority.None? { return Panic; }
    return Parsed(CreateCommand(IndexOf(signers, KeyOf(stakeAccount)).value, IndexOf(signers, KeyOf(from)).value,
                                IndexOf(signers, KeyOf(feePayer)).value, nonceAuthority.value,
                                if checked then IndexOf(signers, withdrawer.key) else None), signers);
  }

  // ---------------------------------------------------------------- split

  datatype SplitCommand = SplitCommand(stakeAuthority: nat, splitAccount: nat, feePayer: nat, nonceAuthority: nat)

  method ParseSplit(
    default: Option<Signer>, stakeAuthority: Option<Signer>, feePayer: Option<Signer>, splitAccount: Option<Signer>,
    nonce: Nonce)
    returns (r: Outcome<SplitCommand>)
    ensures Accounted(r, default, WithNonce([stakeAuthority, feePayer, splitAccount], nonce), nonce)
    ensures r.Parsed? ==>
              && PointsAt(r.signers, r.command.stakeAuthority, stakeAuthority, default)
              && PointsAt(r.signers, r.command.splitAccount, splitAccount, default)
              && PointsAt(r.signers, r.command.feePayer, feePayer, default)
              && NonceIndex(r.signers, r.command.nonceAuthority, nonce, default)
  {
    var bulk := [stakeAuthority, feePayer, splitAccount];
    if nonce.account.Some? { bulk := bulk + [nonce.authority]; }
    var unique := GenerateUniqueSigners(default, bulk);
    if unique.None? { return NoDefault; }
    var signers := unique.value;
    NonceResolves(default, bulk, nonce);
    ListedRoleResolves(default, bulk, stakeAuthority);
    ListedRoleResolves(default, bulk, feePayer);
    ListedRoleResolves(default, bulk, splitAccount);
    var nonceAuthority := IndexOf(signers, KeyOf(nonce.authority));
    if nonceAuthority.None? { return Panic; }
    return Parsed(SplitCommand(IndexOf(signers, KeyOf(stakeAuthority)).value,
                               IndexOf(signers, KeyOf(splitAccount)).value,
                               IndexOf(signers, KeyOf(feePayer)).value, nonceAuthority.value), signers);
  }

  // ---------------------------------------------------------------- withdraw, set lockup

  /** `extra` is the custodian of a withdrawal, or the new custodian of a checked lockup. */
  datatype ExtraCommand = ExtraCommand(authority: nat, feePayer: nat, nonceAuthority: nat, extra: Option<nat>)

  method ParseWithdraw(
    default: Option<Signer>, withdrawAuthority: Option<Signer>, feePayer: Option<Signer>, nonce: Nonce,
    custodian: Option<Signer>)
    returns (r: Outcome<ExtraCommand>)
    ensures Accounted(r, default, WithSome(WithNonce([withdrawAuthority, feePayer], nonce), custodian), nonce)
    ensures r.Parsed? ==>
              && PointsAt(r.signers, r.command.authority, withdrawAuthority, default)
              && PointsAt(r.signers, r.command.feePayer, feePayer, default)
              && NonceIndex(r.signers, r.command.nonceAuthority, nonce, default)
              && (r.command.extra.Some? <==> custodian.Some?)
              && (custodian.Some? ==> PointsAt(r.signers, r.command.extra.value, custodian, default))
  {
    var bulk := [withdrawAuthority, feePayer];
    if nonce.account.Some? { bulk := bulk + [nonce.authority]; }
    if custodian.Some? { bulk := bulk + [custodian]; }
    var unique := GenerateUniqueSigners(default, bulk);
    if unique.None? { return NoDefault; }
    var signers := unique.value;
    assert bulk[0] == withdrawAuthority && bulk[1] == feePayer && (nonce.account.Some? ==> bulk[2] == nonce.authority);
    NonceResolves(default, bulk, nonce);
    ListedRoleResolves(default, bulk, withdrawAuthority);
    ListedRoleResolves(default, bulk, feePayer);
    if custodian.Some? { ListedRoleResolves(default, bulk, custodian); }
    var nonceAuthority := IndexOf(signers, KeyOf(nonce.authority));
    if nonceAuthority.None? { return Panic; }
    var extra := if custodian.Some? then IndexOf(signers, KeyOf(custodian)) else None;
    return Parsed(ExtraCommand(IndexOf(signers, KeyOf(withdrawAuthority)).value,
                               IndexOf(signers, KeyOf(feePayer)).value, nonceAuthority.value, extra), signers);
  }

  method ParseSetLockup(
    default: Option<Signer>, custodian: Option<Signer>, feePayer: Option<Signer>, nonce: Nonce, checked: bool,
    newCustodian: Party)
    returns (r: Outcome<ExtraCommand>)
    requires Consistent(checked, newCustodian)
    ensures Accounted(r, default, WithSome(WithNonce([custodian, feePayer], nonce), newCustodian.signer), nonce)
    ensures r.Parsed? ==>
              && PointsAt(r.signers, r.command.authority, custodian, default)
              && PointsAt(r.signers, r.command.feePayer, feePayer, default)
              && NonceIndex(r.signers, r.command.nonceAuthority, nonce, default)
              && (r.command.extra.Some? <==> checked)
              && (newCustodian.signer.Some? ==>
                  PointsAt(r.signers, r.command.extra.value, newCustodian.signer, default))
              && (checked && newCustodian.signer.None? ==> r.command.extra.value == 0 < |r.signers|)
  {
    var bulk := [custodian, feePayer];
    if nonce.account.Some? { bulk := bulk + [nonce.authority]; }
    if newCustodian.signer.Some? { bulk := bulk + [newCustodian.signer]; }
    var unique := GenerateUniqueSigners(default, bulk);
    if unique.None? { return NoDefault; }
    var signers := unique.value;
    assert bulk[0] == custodian && bulk[1] == feePayer && (nonce.account.Some? ==> bulk[2] == nonce.authority);
    NonceResolves(default, bulk, nonce);
    ListedRoleResolves(default, bulk, custodian);
    ListedRoleResolves(default, bulk, feePayer);
    if newCustodian.signer.Some? { ListedRoleResolves(default, bulk, newCustodian.signer); }
    var nonceAuthority := IndexOf(signers, KeyOf(nonce.authority));
    if nonceAuthority.None? { return Panic; }
    var extra := if checked then IndexOf(signers, newCustodian.key) else None;
    return Parsed(ExtraCommand(IndexOf(signers, KeyOf(custodian)).value, IndexOf(signers, KeyOf(feePayer)).value,
                               nonceAuthority.value, extra), signers);
  }

  // ---------------------------------------------------------------- authorize

  datatype Kind = Staker | Withdrawer

  datatype Authorization = Authorization(kind: Kind, newKey: Pubkey, authority: Option<Signer>)

  datatype IndexedAuthorization = IndexedAuthorization(
    kind: Kind, newKey: Pubkey, authority: nat, newSigner: Option<nat>)

  datatype AuthorizeCommand = AuthorizeCommand(
    authorizations: seq<IndexedAuthorization>, feePayer: nat, nonceAuthority: nat, custodian: Option<nat>)

  /** The withdraw authority may stand in for the stake authority when changing the staker. */
  function StakerAuthority(stakeAuthority: Option<Signer>, withdrawAuthority: Option<Signer>): Option<Signer>
  {
    if stakeAuthority.None? then withdrawAuthority else stakeAuthority
  }

  /** The entry for the new staker's signer is made whenever a new staker is named, signer or not. */
  function AuthorizeBulk(
    newStaker: Party, newWithdrawer: Party, stakeAuthority: Option<Signer>, withdrawAuthority: Option<Signer>,
    feePayer: Option<Signer>, nonce: Nonce, custodian: Option<Signer>): seq<Option<Signer>>
  {
    var staker := StakerEntries(newStaker, StakerAuthority(stakeAuthority, withdrawAuthority));
    var withdrawer := WithdrawerEntries(newWithdrawer, withdrawAuthority);
    WithSome(WithNonce(staker + withdrawer + [feePayer], nonce), custodian)
  }

  function StakerEntries(newStaker: Party, authority: Option<Signer>): seq<Option<Signer>>
  {
    if newStaker.key.Some? then [authority, newStaker.signer] else []
  }

  function WithdrawerEntries(newWithdrawer: Party, authority: Option<Signer>): seq<Option<Signer>>
  {
    if newWithdrawer.key.Some? then WithSome([authority], newWithdrawer.signer) else []
  }

  function Authorizations(
    newStaker: Party, newWithdrawer: Party, stakeAuthority: Option<Signer>,
    withdrawAuthority: Option<Signer>): seq<Authorization>
  {
    (if newStaker.key.Some?
     then [Authorization(Staker, newStaker.key.value, StakerAuthority(stakeAuthority, withdrawAuthority))]
     else [])
    + (if newWithdrawer.key.Some? then [Authorization(Withdrawer, newWithdrawer.key.value, withdrawAuthority)] else [])
  }

  /** Each authorization, in order, with the index of its authority and of the new key if it signs. */
  ghost predicate Indexed(
    auths: seq<Authorization>, indexed: seq<IndexedAuthorization>, signers: seq<Signer>, default: Option<Signer>,
    checked: bool)
  {
    && |indexed| == |auths|
    && forall i :: 0 <= i < |auths| ==>
         && indexed[i].kind == auths[i].kind && indexed[i].newKey == auths[i].newKey
         && PointsAt(signers, indexed[i].authority, auths[i].authority, default)
         && (indexed[i].newSigner.Some? <==> HasKey(signers, auths[i].newKey))
         && (indexed[i].newSigner.Some? ==>
             indexed[i].newSigner.value < |signers| && signers[indexed[i].newSigner.value].pubkey == auths[i].newKey)
         && (checked ==> indexed[i].newSigner.Some?)
  }

  /**
   * One authorization for each new key that is named, staker before withdrawer. The staker is changed by
   * the stake authority if there is one, else by the withdraw authority or the default signer; the
   * withdrawer by the withdraw authority or the default signer.
   */
  ghost predicate AuthorizedBy(
    a: seq<IndexedAuthorization>, signers: seq<Signer>, default: Option<Signer>, newStaker: Party,
    newWithdrawer: Party, stakeAuthority: Option<Signer>, withdrawAuthority: Option<Signer>)
  {
    && |a| == (if newStaker.key.Some? then 1 else 0) + (if newWithdrawer.key.Some? then 1 else 0)
    && (newStaker.key.Some? ==>
          && a[0].kind == Staker && a[0].newKey == newStaker.key.value
          && (stakeAuthority.Some? ==> PointsAt(signers, a[0].authority, stakeAuthority, default))
          && (stakeAuthority.None? ==> PointsAt(signers, a[0].authority, withdrawAuthority, default)))
    && (newWithdrawer.key.Some? ==>
          && a[|a| - 1].kind == Withdrawer && a[|a| - 1].newKey == newWithdrawer.key.value
          && PointsAt(signers, a[|a| - 1].authority, withdrawAuthority, default))
  }

  lemma IndexedAreAuthorized(
    a: seq<IndexedAuthorization>, signers: seq<Signer>, default: Option<Signer>, checked: bool, newStaker: Party,
    newWithdrawer: Party, stakeAuthority: Option<Signer>, withdrawAuthority: Option<Signer>)
    requires Indexed(Authorizations(newStaker, newWithdrawer, stakeAuthority, withdrawAuthority), a, signers, default,
        checked)
    ensures AuthorizedBy(a, signers, default, newStaker, newWithdrawer, stakeAuthority, withdrawAuthority)
  {
  }

  /**
   * When the default signer is needed: no fee payer, a nonce without its authority, a new staker without a
   * signer or with nobody to authorize it, or a new withdrawer without a withdraw authority.
   */
  predicate NeedsDefault(
    newStaker: Party, newWithdrawer: Party, stakeAuthority: Option<Signer>, withdrawAuthority: Option<Signer>,
    feePayer: Option<Signer>, nonce: Nonce)
  {
    || feePayer.None?
    || (nonce.account.Some? && nonce.authority.None?)
    || (newStaker.key.Some? && (newStaker.signer.None? || (stakeAuthority.None? && withdrawAuthority.None?)))
    || (newWithdrawer.key.Some? && withdrawAuthority.None?)
  }

  /** Every role of the command is in the list. */
  lemma AuthorizeListsRoles(
    newStaker: Party, newWithdrawer: Party, stakeAuthority: Option<Signer>, withdrawAuthority: Option<Signer>,
    feePayer: Option<Signer>, nonce: Nonce, custodian: Option<Signer>)
    ensures var bulk := AuthorizeBulk(newStaker, newWithdrawer, stakeAuthority, withdrawAuthority, feePayer, nonce,
        custodian);
            && bulk != [] && feePayer in bulk
            && (nonce.account.Some? ==> nonce.authority in bulk)
            && (custodian.Some? ==> custodian in bulk)
            && (newStaker.key.Some? ==>
                StakerAuthority(stakeAuthority, withdrawAuthority) in bulk && newStaker.signer in bulk)
            && (newWithdrawer.key.Some? ==>
                withdrawAuthority in bulk && (newWithdrawer.signer.Some? ==> newWithdrawer.signer in bulk))
  {
  }

  method IndexAuthorizations(
    default: Option<Signer>, ghost bulk: seq<Option<Signer>>, auths: seq<Authorization>, signers: seq<Signer>,
    ghost checked: bool)
    returns (indexed: seq<IndexedAuthorization>)
    requires signers == FirstOccurrences(Candidates(default, bulk)) && (SomeAbsent(bulk) ==> default.Some?)
    requires forall i :: 0 <= i < |auths| ==> auths[i].authority in bulk
    requires checked ==> forall i :: 0 <= i < |auths| ==> Available(default, bulk, auths[i].newKey)
    ensures Indexed(auths, indexed, signers, default, checked)
  {
    indexed := [];
    while |indexed| < |auths|
      invariant |indexed| <= |auths| && Indexed(auths[..|indexed|], indexed, signers, default, checked)
    {
      var a := auths[|indexed|];
      ListedRoleResolves(default, bulk, a.authority);
      KeyResolvesIffAvailable(default, bulk, a.newKey);
      indexed := indexed + [IndexedAuthorization(a.kind, a.newKey, IndexOf(signers, KeyOf(a.authority)).value,
                                                 IndexOf(signers, Some(a.newKey)))];
    }
    assert auths[..|auths|] == auths;
  }

  /** The list of signers and of authorizations, pushed one by one. */
  method ListAuthorize(
    newStaker: Party, newWithdrawer: Party, stakeAuthority: Option<Signer>, withdrawAuthority: Option<Signer>,
    feePayer: Option<Signer>, nonce: Nonce, custodian: Option<Signer>)
    returns (auths: seq<Authorization>, bulk: seq<Option<Signer>>)
    ensures bulk == AuthorizeBulk(newStaker, newWithdrawer, stakeAuthority, withdrawAuthority, feePayer, nonce,
        custodian)
    ensures auths == Authorizations(newStaker, newWithdrawer, stakeAuthority, withdrawAuthority)
  {
    auths, bulk := [], [];
    if newStaker.key.Some? {
      var authority := if stakeAuthority.None? then withdrawAuthority else stakeAuthority;
      auths := auths + [Authorization(Staker, newStaker.key.value, authority)];
      bulk := bulk + [authority];
      bulk := bulk + [newStaker.signer];
    }
    ghost var staker := bulk;
    assert staker == StakerEntries(newStaker, StakerAuthority(stakeAuthority, withdrawAuthority));
    if newWithdrawer.key.Some? {
      auths := auths + [Authorization(Withdrawer, newWithdrawer.key.value, withdrawAuthority)];
      bulk := bulk + [withdrawAuthority];
      if newWithdrawer.signer.Some? { bulk := bulk + [newWithdrawer.signer]; }
    }
    assert bulk == staker + WithdrawerEntries(newWithdrawer, withdrawAuthority);
    bulk := bulk + [feePayer];
    if nonce.account.Some? { bulk := bulk + [nonce.authority]; }
    if custodian.Some? { bulk := bulk + [custodian]; }
  }

  lemma AuthorizationsListed(
    default: Option<Signer>, bulk: seq<Option<Signer>>, checked: bool, newStaker: Party, newWithdrawer: Party,
    stakeAuthority: Option<Signer>, withdrawAuthority: Option<Signer>)
    requires Consistent(checked, newStaker) && Consistent(checked, newWithdrawer)
    requires newStaker.key.Some? ==>
        StakerAuthority(stakeAuthority, withdrawAuthority) in bulk && newStaker.signer in bulk
    requires newWithdrawer.key.Some? ==>
        withdrawAuthority in bulk && (newWithdrawer.signer.Some? ==> newWithdrawer.signer in bulk)
    ensures var auths := Authorizations(newStaker, newWithdrawer, stakeAuthority, withdrawAuthority);
            forall i :: 0 <= i < |auths| ==>
                auths[i].authority in bulk && (checked ==> Available(default, bulk, auths[i].newKey))
  {
    if newStaker.signer.Some? && newStaker.signer in bulk {
      var i :| 0 <= i < |bulk| && bulk[i] == newStaker.signer;
      assert Available(default, bulk, newStaker.signer.value.pubkey);
    }
    if newWithdrawer.signer.Some? && newWithdrawer.signer in bulk {
      var i :| 0 <= i < |bulk| && bulk[i] == newWithdrawer.signer;
      assert Available(default, bulk, newWithdrawer.signer.value.pubkey);
    }
  }

  method ParseAuthorize(
    default: Option<Signer>, checked: bool, newStaker: Party, newWithdrawer: Party,
    stakeAuthority: Option<Signer>, withdrawAuthority: Option<Signer>, feePayer: Option<Signer>, nonce: Nonce,
    custodian: Option<Signer>)
    returns (r: Outcome<AuthorizeCommand>)
    requires Consistent(checked, newStaker) && Consistent(checked, newWithdrawer)
    ensures Accounted(r, default,
        AuthorizeBulk(newStaker, newWithdrawer, stakeAuthority, withdrawAuthority, feePayer, nonce, custodian), nonce)
    ensures r.NoDefault? <==>
              && default.None?
              && NeedsDefault(newStaker, newWithdrawer, stakeAuthority, withdrawAuthority, feePayer, nonce)
    ensures r.Parsed? ==>
              && AuthorizedBy(r.command.authorizations, r.signers, default, newStaker, newWithdrawer,
                              stakeAuthority, withdrawAuthority)
              && Indexed(Authorizations(newStaker, newWithdrawer, stakeAuthority, withdrawAuthority),
                         r.command.authorizations, r.signers, default, checked)
              && PointsAt(r.signers, r.command.feePayer, feePayer, default)
              && NonceIndex(r.signers, r.command.nonceAuthority, nonce, default)
              && (r.command.custodian.Some? <==> custodian.Some?)
              && (custodian.Some? ==> PointsAt(r.signers, r.command.custodian.value, custodian, default))
  {
    AuthorizeListsRoles(newStaker, newWithdrawer, stakeAuthority, withdrawAuthority, feePayer, nonce, custodian);
    var auths, bulk := ListAuthorize(newStaker, newWithdrawer, stakeAuthority, withdrawAuthority, feePayer, nonce,
        custodian);
    AuthorizationsListed(default, bulk, checked, newStaker, newWithdrawer, stakeAuthority, withdrawAuthority);
    AuthorizeNeedsDefault(newStaker, newWithdrawer, stakeAuthority, withdrawAuthority, feePayer, nonce, custodian);
    r := ResolveAuthorize(default, bulk, auths, checked, feePayer, nonce, custodian);
    if r.Parsed? {
      IndexedAreAuthorized(r.command.authorizations, r.signers, default, checked, newStaker, newWithdrawer,
                           stakeAuthority, withdrawAuthority);
    }
  }

  method ResolveAuthorize(
    default: Option<Signer>, bulk: seq<Option<Signer>>, auths: seq<Authorization>, ghost checked: bool,
    feePayer: Option<Signer>, nonce: Nonce, custodian: Option<Signer>) returns (r: Outcome<AuthorizeCommand>)
    requires feePayer in bulk && (nonce.account.Some? ==> nonce.authority in bulk)
        && (custodian.Some? ==> custodian in bulk)
    requires forall i :: 0 <= i < |auths| ==>
        auths[i].authority in bulk && (checked ==> Available(default, bulk, auths[i].newKey))
    ensures Accounted(r, default, bulk, nonce)
    ensures r.Parsed? ==>
              && Indexed(auths, r.command.authorizations, r.signers, default, checked)
              && PointsAt(r.signers, r.command.feePayer, feePayer, default)
              && NonceIndex(r.signers, r.command.nonceAuthority, nonce, default)
              && (r.command.custodian.Some? <==> custodian.Some?)
              && (custodian.Some? ==> PointsAt(r.signers, r.command.custodian.value, custodian, default))
  {
    var unique := GenerateUniqueSigners(default, bulk);
    if unique.None? { return NoDefault; }
    var signers := unique.value;
    NonceResolves(default, bulk, nonce);
    ListedRoleResolves(default, bulk, feePayer);
    if custodian.Some? { ListedRoleResolves(default, bulk, custodian); }
    var nonceAuthority := IndexOf(signers, KeyOf(nonce.authority));
    if nonceAuthority.None? { return Panic; }
    var indexed := IndexAuthorizations(default, bulk, auths, signers, checked);
    return Parsed(AuthorizeCommand(indexed, IndexOf(signers, KeyOf(feePayer)).value, nonceAuthority.value,
                                   if custodian.Some? then IndexOf(signers, KeyOf(custodian)) else None), signers);
  }

  lemma AuthorizeNeedsDefault(
    newStaker: Party, newWithdrawer: Party, stakeAuthority: Option<Signer>, withdrawAuthority: Option<Signer>,
    feePayer: Option<Signer>, nonce: Nonce, custodian: Option<Signer>)
    ensures SomeAbsent(AuthorizeBulk(newStaker, newWithdrawer, stakeAuthority, withdrawAuthority, feePayer, nonce,
        custodian))
       <==> NeedsDefault(newStaker, newWithdrawer, stakeAuthority, withdrawAuthority, feePayer, nonce)
  {
    var authority := StakerAuthority(stakeAuthority, withdrawAuthority);
    var staker, withdrawer := StakerEntries(newStaker, authority), WithdrawerEntries(newWithdrawer, withdrawAuthority);
    AbsentInConcat(staker, withdrawer);
    AbsentInConcat(staker + withdrawer, [feePayer]);
    AbsentInConcat(staker + withdrawer + [feePayer], [nonce.authority]);
    AbsentInConcat(WithNonce(staker + withdrawer + [feePayer], nonce), [custodian]);
    AbsentInOne(feePayer);
    AbsentInOne(nonce.authority);
    AbsentInOne(custodian);
    AbsentInOne(withdrawAuthority);
    AbsentInOne(newWithdrawer.signer);
    AbsentInConcat([withdrawAuthority], [newWithdrawer.signer]);
    AbsentInTwo(authority, newStaker.signer);
  }

  /**
   * Naming a new staker by key alone makes the default signer necessary even when every role of
   * the command has its own signer; naming a new withdrawer by key alone does not.
   */
  lemma NewStakerByKeyNeedsDefault(
    newStaker: Party, newWithdrawer: Party, stakeAuthority: Option<Signer>, withdrawAuthority: Option<Signer>,
    feePayer: Option<Signer>, nonce: Nonce, custodian: Option<Signer>)
    requires stakeAuthority.Some? && withdrawAuthority.Some? && feePayer.Some?
        && (nonce.account.Some? ==> nonce.authority.Some?)
    ensures SomeAbsent(AuthorizeBulk(newStaker, newWithdrawer, stakeAuthority, withdrawAuthority, feePayer, nonce,
        custodian))
       <==> newStaker.key.Some? && newStaker.signer.None?
  {
    AuthorizeNeedsDefault(newStaker, newWithdrawer, stakeAuthority, withdrawAuthority, feePayer, nonce, custodian);
  }

  /** With every role given and all keys different, the signers come in the order they are pushed. */
  lemma AuthorizeOrder(
    default: Option<Signer>, newStaker: Signer, newWithdrawer: Signer, stake: Signer, withdraw: Signer,
    feePayer: Signer, nonceAccount: Pubkey, nonceAuthority: Signer, custodian: Signer)
    requires DistinctKeys([stake, newStaker, withdraw, newWithdrawer, feePayer, nonceAuthority, custodian])
    ensures var bulk := AuthorizeBulk(Party(Some(newStaker), Some(newStaker.pubkey)),
                                      Party(Some(newWithdrawer), Some(newWithdrawer.pubkey)),
                                      Some(stake), Some(withdraw), Some(feePayer),
                                      Nonce(Some(nonceAccount), Some(nonceAuthority)), Some(custodian));
            FirstOccurrences(Candidates(default, bulk))
            == [stake, newStaker, withdraw, newWithdrawer, feePayer, nonceAuthority, custodian]
  {
    var all := [stake, newStaker, withdraw, newWithdrawer, feePayer, nonceAuthority, custodian];
    var bulk := [Some(stake), Some(newStaker), Some(withdraw), Some(newWithdrawer), Some(feePayer),
                 Some(nonceAuthority), Some(custodian)];
    assert bulk == AuthorizeBulk(Party(Some(newStaker), Some(newStaker.pubkey)),
                                 Party(Some(newWithdrawer), Some(newWithdrawer.pubkey)), Some(stake), Some(withdraw),
                                 Some(feePayer), Nonce(Some(nonceAccount), Some(nonceAuthority)), Some(custodian));
    assert bulk == Given(all);
    AllGiven(default, all);
    DistinctUnchanged(all);
  }

  lemma AbsentInOne(role: Option<Signer>)
    ensures SomeAbsent([role]) <==> role.None?
  {
    if role.None? { assert [role][0].None?; }
  }

  lemma AbsentInTwo(a: Option<Signer>, b: Option<Signer>)
    ensures SomeAbsent([a, b]) <==> a.None? || b.None?
  {
    AbsentInOne(a);
    AbsentInOne(b);
    AbsentInConcat([a], [b]);
    assert [a] + [b] == [a, b];
  }

  lemma AbsentInConcat(a: seq<Option<Signer>>, b: seq<Option<Signer>>)
    ensures SomeAbsent(a + b) <==> SomeAbsent(a) || SomeAbsent(b)
  {
    if SomeAbsent(a) {
      var i :| 0 <= i < |a| && a[i].None?;
      assert (a + b)[i].None?;
    }
    if SomeAbsent(b) {
      var i :| 0 <= i < |b| && b[i].None?;
      assert (a + b)[|a| + i].None?;
    }
  }
}
