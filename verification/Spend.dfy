/**
 * Resolving what a command spends against balances and fees. Amounts are 64-bit: subtraction
 * saturates where the code says so, and the one plain addition wraps around.
 */
module Spend {
  import opened Prelude

  datatype SpendAmount = All | Exactly(lamports: u64) | RentExempt

  /** The answers of the cluster; none is a failed call. The fee depends on the message. */
  datatype Cluster<!M> = Cluster(
    fromBalance: Option<u64>, feeBalance: Option<u64>, fee: M -> Option<u64>, rentMinimum: Option<u64>)

  datatype Error = CallFailed | InsufficientForSpendAndFee | InsufficientForSpend | InsufficientForFee

  /** A message together with what it spends and the fee it was checked against. */
  datatype SpendMessage<M> = SpendMessage(message: M, spend: u64, fee: u64)

  datatype Outcome<M> = Resolved(message: M, spend: u64) | Refused(error: Error)

  function SaturatingSub(a: u64, b: u64): u64
  {
    if a >= b then a - b else 0
  }

  function WrappingAdd(a: u64, b: u64): u64
  {
    (a + b) % (U64_MAX + 1)
  }

  /** `resolve_spend_message`: each kind of amount builds its own message and states its own spend. */
  function ResolveSpendMessage<M>(
    amount: SpendAmount, fee: u64, sameAccount: bool, balance: u64, rentMinimum: u64, build: u64 -> M): SpendMessage<M>
  {
    match amount
    case Exactly(lamports) => SpendMessage(build(lamports), lamports, fee)
    case All =>
      var lamports := if sameAccount then SaturatingSub(balance, fee) else balance;
      SpendMessage(build(lamports), lamports, fee)
    case RentExempt =>
      var rest := if sameAccount then SaturatingSub(balance, fee) else balance;
      var lamports := SaturatingSub(rest, rentMinimum);
      SpendMessage(build(lamports), lamports, fee)
  }

  function CheckAccountForBalance(lamports: u64, balance: u64): bool
  {
    lamports != 0 && lamports >= balance
  }

  /**
   * `resolve_spend_tx_and_check_account_balances`; `build` makes the message for an amount. The fee
   * is asked for the message that spends nothing, before the amount is known.
   */
  function Resolve<M>(
    c: Cluster<M>, signOnly: bool, amount: SpendAmount, sameAccount: bool, build: u64 -> M): Outcome<M>
  {
    if signOnly then
      var m := ResolveSpendMessage(amount, 0, sameAccount, 0, 0, build);
      Resolved(m.message, m.spend)
    else if c.fromBalance.None? || (amount.RentExempt? && c.rentMinimum.None?) || c.fee(build(0)).None? then
      Refused(CallFailed)
    else
      var balance, rentMinimum := c.fromBalance.value, if amount.RentExempt? then c.rentMinimum.value else 0;
      var m := ResolveSpendMessage(amount, c.fee(build(0)).value, sameAccount, balance, rentMinimum, build);
      if sameAccount then
        if balance == 0 || balance < WrappingAdd(m.spend, m.fee) then Refused(InsufficientForSpendAndFee)
        else Resolved(m.message, m.spend)
      else if balance < m.spend then Refused(InsufficientForSpend)
      else if c.feeBalance.None? then Refused(CallFailed)
      else if !CheckAccountForBalance(c.feeBalance.value, m.fee) then Refused(InsufficientForFee)
      else Resolved(m.message, m.spend)
  }

  /** The answers that a request needs are there. */
  predicate Answered<M>(c: Cluster<M>, amount: SpendAmount, build: u64 -> M)
  {
    c.fromBalance.Some? && c.fee(build(0)).Some? && (amount.RentExempt? ==> c.rentMinimum.Some?)
  }

  /** The message is the one built for the amount spent; offline, only an exact amount spends anything. */
  ghost predicate BuiltFor<M>(r: Outcome<M>, signOnly: bool, amount: SpendAmount, build: u64 -> M)
  {
    && (r.Resolved? ==> r.message == build(r.spend))
    && (r.Resolved? && amount.Exactly? ==> r.spend == amount.lamports)
    && (signOnly ==> r.Resolved? && (!amount.Exactly? ==> r.spend == 0))
  }

  /**
   * One account pays both. The request fails on a call exactly when it goes to the cluster and an
   * answer is missing; with all answers it goes through exactly when the account is not empty and
   * covers amount and fee, or the sum leaves 64 bits and its wrapped value is covered. It covers
   * both exactly when the sum fits; spending everything leaves nothing, and a positive rent-exempt
   * spend leaves the rent minimum.
   */
  lemma OneAccountPaysBoth<M>(c: Cluster<M>, signOnly: bool, amount: SpendAmount, build: u64 -> M)
    ensures var r := Resolve(c, signOnly, amount, true, build);
            && BuiltFor(r, signOnly, amount, build)
            && (r == Refused(CallFailed) <==> !signOnly && !Answered(c, amount, build))
    ensures !signOnly && Answered(c, amount, build) ==>
              var r := Resolve(c, false, amount, true, build);
              var balance, fee := c.fromBalance.value, c.fee(build(0)).value;
              && (r.Resolved? <==>
                    && balance > 0
                    && (if amount.Exactly? then
                          var sum := amount.lamports + fee; sum <= balance || U64_MAX < sum <= U64_MAX + 1 + balance
                        else fee <= balance))
              && (r.Refused? ==> r.error == InsufficientForSpendAndFee)
              && (r.Resolved? ==> (r.spend + fee <= balance <==> r.spend + fee <= U64_MAX))
              && (r.Resolved? && amount.All? ==> r.spend + fee == balance)
              && (r.Resolved? && amount.RentExempt? ==>
                    && (r.spend == 0 <==> balance <= fee + c.rentMinimum.value)
                    && (r.spend > 0 ==> balance - r.spend - fee == c.rentMinimum.value))
  {
    if Answered(c, amount, build) {
      var rentMinimum := if amount.RentExempt? then c.rentMinimum.value else 0;
      var m := ResolveSpendMessage(amount, c.fee(build(0)).value, true, c.fromBalance.value, rentMinimum, build);
      WrappedSum(m.spend, m.fee);
    }
  }

  lemma WrappedSum(a: u64, b: u64)
    ensures WrappingAdd(a, b) == if a + b <= U64_MAX then a + b else a + b - U64_MAX - 1
  {
    if a + b > U64_MAX { assert a + b == (U64_MAX + 1) + (a + b - U64_MAX - 1); }
  }

  /** A sum that wraps to zero slips past the check with any positive balance. */
  lemma WrappedSumIsAccepted(balance: u64, fee: u64)
    requires 0 < fee && balance > 0
    ensures var c := Cluster(Some(balance), None, (_: u64) => Some(fee), None);
            var r := Resolve(c, false, Exactly(U64_MAX - fee + 1), true, (n: u64) => n);
            r.Resolved? && r.spend + fee > balance
  {
    WrappedSum(U64_MAX - fee + 1, fee);
  }

  /** The sender covers what is to be spent. */
  predicate SpendCovered<M>(c: Cluster<M>, amount: SpendAmount)
    requires c.fromBalance.Some?
  {
    amount.Exactly? ==> amount.lamports <= c.fromBalance.value
  }

  /**
   * Two accounts: the balance of the fee payer is asked for last, so a request fails on a call exactly
   * when an answer is missing, that one only if the spend is covered. With all answers each account
   * covers its own part, the fee payer is never empty, and the error names the part not covered.
   */
  lemma TwoAccountsPayTheirPart<M>(
    c: Cluster<M>, signOnly: bool, amount: SpendAmount, build: u64 -> M)
    ensures var r := Resolve(c, signOnly, amount, false, build);
            && BuiltFor(r, signOnly, amount, build)
            && (r == Refused(CallFailed) <==>
                  && !signOnly
                  && (!Answered(c, amount, build) || (c.feeBalance.None? && SpendCovered(c, amount))))
    ensures !signOnly && Answered(c, amount, build) ==>
              var r := Resolve(c, false, amount, false, build);
              && (r == Refused(InsufficientForSpend) <==> !SpendCovered(c, amount))
              && (r == Refused(InsufficientForFee) <==>
                    && SpendCovered(c, amount) && c.feeBalance.Some?
                    && (c.feeBalance.value == 0 || c.feeBalance.value < c.fee(build(0)).value))
              && (r.Refused? ==> r.error != InsufficientForSpendAndFee)
              && (r.Resolved? ==> r.spend <= c.fromBalance.value)
              && (r.Resolved? && amount.All? ==> r.spend == c.fromBalance.value)
              && (r.Resolved? && amount.RentExempt? ==>
                    && (r.spend == 0 <==> c.fromBalance.value <= c.rentMinimum.value)
                    && (r.spend > 0 ==> c.fromBalance.value - r.spend == c.rentMinimum.value))
  {
    var rentMinimum := if amount.RentExempt? && c.rentMinimum.Some? then c.rentMinimum.value else 0;
    if Answered(c, amount, build) {
      var m := ResolveSpendMessage(amount, c.fee(build(0)).value, false, c.fromBalance.value, rentMinimum, build);
      assert m.spend <= c.fromBalance.value <==> SpendCovered(c, amount);
    }
  }
}
