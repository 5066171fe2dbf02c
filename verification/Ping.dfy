/**
 * The ping loop: send a transfer, poll until it lands, fails or times out, record one ping, and
 * go on until the count is reached, an interrupt arrives or a call to the cluster fails.
 * The answers of the cluster and the clock are arbitrary inputs.
 */
module Ping {
  import opened Prelude

  type Hash = nat
  type Signature = nat

  /** The all-zero hash, which as a fixed blockhash means "take one from the cluster". */
  const DEFAULT_HASH: Hash := 0

  datatype Answer = CallFails | NotYet | Landed | Rejected(error: string)

  /** One poll of the signature status, when it was made, and whether an interrupt cut the sleep short. */
  datatype Poll = Poll(answer: Answer, elapsed: nat, interrupted: bool)

  datatype Sent = SendFails(error: string) | Accepted(signature: Signature)

  /** What the outside world does in one round of the loop. */
  datatype Round = Round(
    expired: bool,              // more than a minute since the blockhash was acquired
    renewed: Option<Hash>,      // the answer to asking for a new blockhash
    spendable: bool,            // balance check and signing succeed
    sent: Sent,
    polls: seq<Poll>,
    interrupted: bool)          // an interrupt during the pause between rounds

  /** The arguments of a run and everything that will happen during it. */
  datatype World = World(fixed: Option<Hash>, latest: Hash, timeout: nat, round: nat -> Round)

  datatype PingData = PingData(
    success: bool,
    signature: Option<Signature>,
    ms: Option<nat>,
    error: Option<string>,
    sequence: nat,
    lamports: Option<nat>)

  datatype Exit = CountReached | Interrupted | CallFailed

  /** A transfer sent, by blockhash and amount: what makes one signature differ from another. */
  datatype Send = Send(blockhash: Hash, lamports: nat)

  datatype Stats = Stats(
    pings: seq<PingData>,
    submitCount: nat,
    confirmedCount: nat,
    times: seq<nat>,
    sends: seq<Send>,
    exit: Exit)

  // ---------------------------------------------------------------- what is sent

  function StartHash(w: World): Hash
  {
    if w.fixed.Some? && w.fixed.value != DEFAULT_HASH then w.fixed.value else w.latest
  }

  /** Round n replaces the blockhash: none is fixed, a minute has passed, and the cluster gives a new one. */
  predicate Renews(w: World, n: nat)
  {
    w.fixed.None? && w.round(n).expired && w.round(n).renewed.Some?
  }

  /** The first round has the blockhash the run started with; the rounds that renew it acquire another. */
  predicate Acquires(w: World, n: nat)
  {
    n == 0 || Renews(w, n)
  }

  function AcquiredHash(w: World, n: nat): Hash
    requires Acquires(w, n)
  {
    if Renews(w, n) then w.round(n).renewed.value else StartHash(w)
  }

  /** The transfer of round n. */
  function SendAt(w: World, n: nat): Send
  {
    if Acquires(w, n) then Send(AcquiredHash(w, n), 1)
    else var before := SendAt(w, n - 1); Send(before.blockhash, before.lamports + 1)
  }

  /** The amount counts the rounds since the blockhash was acquired, so it never leaves 64 bits. */
  lemma {:induction false} PeriodStart(w: World, n: nat)
    ensures var s := SendAt(w, n);
            && 1 <= s.lamports <= n + 1
            && Acquires(w, n + 1 - s.lamports) && s.blockhash == AcquiredHash(w, n + 1 - s.lamports)
            && forall i :: n + 1 - s.lamports < i <= n ==> !Acquires(w, i)
  {
    if !Acquires(w, n) { PeriodStart(w, n - 1); }
  }

  /** Round i asked for a new blockhash and got this one. */
  predicate Got(w: World, i: nat, blockhash: Hash)
  {
    w.fixed.None? && w.round(i).expired && w.round(i).renewed == Some(blockhash)
  }

  /** No round from i up to n got a new blockhash. */
  ghost predicate NoneGot(w: World, i: nat, n: nat)
  {
    forall j, h :: i <= j <= n ==> !Got(w, j, h)
  }

  /**
   * The transfer of round n from the arguments and answers: the blockhash of the last round that got
   * one and the rounds since; or, if none did, the fixed blockhash if it is one, else the first answer
   * of the cluster.
   */
  lemma SendFromAnswers(w: World, n: nat)
    ensures var s := SendAt(w, n);
            || (exists i: nat :: i <= n && Got(w, i, s.blockhash) && NoneGot(w, i + 1, n) && s.lamports == n + 1 - i)
            || (&& NoneGot(w, 0, n) && s.lamports == n + 1
                && s.blockhash == match w.fixed
                                  case Some(h) => if h == DEFAULT_HASH then w.latest else h
                                  case None => w.latest)
  {
    var s := SendAt(w, n);
    PeriodStart(w, n);
    var i: nat := n + 1 - s.lamports;
    forall j: nat, h | i + 1 <= j <= n
      ensures !Got(w, j, h)
    {
      assert !Acquires(w, j);
    }
    if Renews(w, i) {
      assert Got(w, i, s.blockhash);
    } else {
      assert forall h :: !Got(w, i, h);
    }
  }

  /** The first n rounds send pairwise different transfers. */
  ghost predicate AllDifferent(w: World, n: nat)
  {
    forall i, j :: 0 <= i < j < n ==> SendAt(w, i) != SendAt(w, j)
  }

  /** The blockhashes acquired in the first n rounds are pairwise different. */
  ghost predicate HashesDifferent(w: World, n: nat)
  {
    forall i, j :: 0 <= i < j < n && Acquires(w, i) && Acquires(w, j) ==> AcquiredHash(w, i) != AcquiredHash(w, j)
  }

  /** No transfer is ever sent twice exactly when the acquired blockhashes do not repeat. */
  lemma SendsDifferIffHashesDiffer(w: World, n: nat)
    ensures AllDifferent(w, n) <==> HashesDifferent(w, n)
  {
    if HashesDifferent(w, n) {
      forall i, j | 0 <= i < j < n
        ensures SendAt(w, i) != SendAt(w, j)
      {
        PeriodStart(w, i);
        PeriodStart(w, j);
      }
    }
    if AllDifferent(w, n) {
      forall i, j | 0 <= i < j < n && Acquires(w, i) && Acquires(w, j)
        ensures AcquiredHash(w, i) != AcquiredHash(w, j)
      {
        assert SendAt(w, i) != SendAt(w, j);
      }
    }
  }

  /** With a fixed blockhash nothing is ever refreshed, so every transfer is different. */
  lemma {:induction false} FixedHashSends(w: World, n: nat)
    requires w.fixed.Some?
    ensures SendAt(w, n) == Send(StartHash(w), n + 1)
  {
    if n > 0 { FixedHashSends(w, n - 1); }
  }

  // ---------------------------------------------------------------- what becomes of one transfer

  /** What sending one transfer leads to: a ping on record, an interrupted run or a failed one. */
  datatype Polled = Recording(ping: PingData) | Cut | Failed

  /** A poll that ends the polling. */
  predicate Decisive(poll: Poll, timeout: nat)
  {
    !poll.answer.NotYet? || poll.elapsed >= timeout || poll.interrupted
  }

  /** The poll that ends the polling: the first decisive one. */
  ghost predicate Ends(polls: seq<Poll>, timeout: nat, k: nat)
  {
    k < |polls| && Decisive(polls[k], timeout) && forall j :: 0 <= j < k ==> !Decisive(polls[j], timeout)
  }

  /** Some poll ends it: an answer comes, a call fails, the timeout passes or an interrupt arrives. */
  ghost predicate PollingEnds(polls: seq<Poll>, timeout: nat)
  {
    exists k :: 0 <= k < |polls| && Decisive(polls[k], timeout)
  }

  /** The clock does not stand still: no accepted transfer is polled forever. */
  ghost predicate TimePasses(w: World)
  {
    forall n :: w.round(n).sent.Accepted? ==> PollingEnds(w.round(n).polls, w.timeout)
  }

  /** How a decisive poll ends it: an answer counts first, then the timeout, then the interrupt. */
  function Verdict(poll: Poll, timeout: nat, signature: Signature, sequence: nat, lamports: nat): Polled
  {
    match poll.answer
    case CallFails => Failed
    case Landed => Recording(PingData(true, Some(signature), Some(poll.elapsed), None, sequence, Some(lamports)))
    case Rejected(error) => Recording(PingData(false, Some(signature), None, Some(error), sequence, None))
    case NotYet =>
      if poll.elapsed >= timeout then Recording(PingData(false, Some(signature), None, None, sequence, None)) else Cut
  }

  method PollSignature(polls: seq<Poll>, timeout: nat, signature: Signature, sequence: nat, lamports: nat)
    returns (r: Polled)
    requires PollingEnds(polls, timeout)
    ensures exists k: nat {:trigger Ends(polls, timeout, k)} ::
              Ends(polls, timeout, k) && r == Verdict(polls[k], timeout, signature, sequence, lamports)
  {
    var k: nat := 0;
    while true
      invariant exists d :: k <= d < |polls| && Decisive(polls[d], timeout)
      invariant forall j :: 0 <= j < k ==> !Decisive(polls[j], timeout)
      decreases |polls| - k
    {
      assert Decisive(polls[k], timeout) ==> Ends(polls, timeout, k);
      match polls[k].answer {
        case CallFails => return Failed;
        case Landed =>
          return Recording(PingData(true, Some(signature), Some(polls[k].elapsed), None, sequence, Some(lamports)));
        case Rejected(error) => return Recording(PingData(false, Some(signature), None, Some(error), sequence, None));
        case NotYet =>
      }
      if polls[k].elapsed >= timeout {
        return Recording(PingData(false, Some(signature), None, None, sequence, None));
      }
      if polls[k].interrupted {
        return Cut;
      }
      k := k + 1;
    }
  }

  /** What becomes of the transfer of one round. */
  ghost predicate Becomes(now: Round, timeout: nat, sequence: nat, lamports: nat, r: Polled)
  {
    match now.sent
    case SendFails(error) => r == Recording(PingData(false, None, None, Some(error), sequence, None))
    case Accepted(signature) =>
      exists k: nat {:trigger Ends(now.polls, timeout, k)} ::
        Ends(now.polls, timeout, k) && r == Verdict(now.polls[k], timeout, signature, sequence, lamports)
  }

  method SendAndPoll(now: Round, timeout: nat, sequence: nat, lamports: nat) returns (r: Polled)
    requires now.sent.Accepted? ==> PollingEnds(now.polls, timeout)
    ensures Becomes(now, timeout, sequence, lamports, r)
  {
    match now.sent {
      case Accepted(signature) => r := PollSignature(now.polls, timeout, signature, sequence, lamports);
      case SendFails(error) => r := Recording(PingData(false, None, None, Some(error), sequence, None));
    }
  }

  /** A ping is a success exactly when it carries a time, and then it carries its amount and no error. */
  lemma PingShape(now: Round, timeout: nat, sequence: nat, lamports: nat, p: PingData)
    requires Becomes(now, timeout, sequence, lamports, Recording(p))
    ensures p.sequence == sequence && (p.success <==> p.ms.Some?)
    ensures p.success ==> p.lamports == Some(lamports) && p.error.None? && p.signature.Some?
  {
  }

  /** The outcome of a round is determined by the round. */
  lemma BecomesOnce(now: Round, timeout: nat, sequence: nat, lamports: nat, one: Polled, two: Polled)
    requires Becomes(now, timeout, sequence, lamports, one) && Becomes(now, timeout, sequence, lamports, two)
    ensures one == two
  {
    if now.sent.Accepted? {
      var i: nat :| Ends(now.polls, timeout, i)
          && one == Verdict(now.polls[i], timeout, now.sent.signature, sequence, lamports);
      var j: nat :| Ends(now.polls, timeout, j)
          && two == Verdict(now.polls[j], timeout, now.sent.signature, sequence, lamports);
      assert i == j;
    }
  }

  /** The outcome of an accepted transfer, from the poll that decided it. */
  ghost predicate Follows(r: Polled, poll: Poll, timeout: nat, signature: Signature, sequence: nat, lamports: nat)
  {
    && (r.Failed? <==> poll.answer.CallFails?)
    && (r.Cut? <==> poll.answer.NotYet? && poll.elapsed < timeout)
    && (r.Recording? ==>
          && (r.ping.success <==> poll.answer.Landed?)
          && r.ping.ms == (if poll.answer.Landed? then Some(poll.elapsed) else None)
          && r.ping.lamports == (if poll.answer.Landed? then Some(lamports) else None)
          && r.ping.error == (if poll.answer.Rejected? then Some(poll.answer.error) else None)
          && r.ping.signature == Some(signature)
          && r.ping.sequence == sequence)
  }

  /**
   * Poll k decides if before it nothing was known, in time and without an interrupt, and it brings an
   * answer, the timeout or an interrupt. Then a landed transfer is a success with its time, a rejected one
   * a failure with its error, and so on.
   */
  lemma OutcomeFollows(now: Round, timeout: nat, sequence: nat, lamports: nat, r: Polled, k: nat)
    requires Becomes(now, timeout, sequence, lamports, r) && now.sent.Accepted? && k < |now.polls|
    requires !now.polls[k].answer.NotYet? || now.polls[k].elapsed >= timeout || now.polls[k].interrupted
    requires forall j :: 0 <= j < k ==>
               now.polls[j].answer.NotYet? && now.polls[j].elapsed < timeout && !now.polls[j].interrupted
    ensures Follows(r, now.polls[k], timeout, now.sent.signature, sequence, lamports)
  {
    assert Ends(now.polls, timeout, k);
    var verdict := Verdict(now.polls[k], timeout, now.sent.signature, sequence, lamports);
    BecomesOnce(now, timeout, sequence, lamports, r, verdict);
  }

  /** A transfer that was not accepted is a failure with the error of sending it, and nothing else. */
  lemma FailedSendFollows(now: Round, timeout: nat, sequence: nat, lamports: nat, r: Polled)
    requires Becomes(now, timeout, sequence, lamports, r) && now.sent.SendFails?
    ensures r.Recording? && !r.ping.success && r.ping.error == Some(now.sent.error) && r.ping.sequence == sequence
    ensures r.ping.signature.None? && r.ping.ms.None? && r.ping.lamports.None?
  {
  }

  /** The transfer of the round was accepted, and the deciding poll found that it landed, after that time. */
  ghost predicate LandsAfter(now: Round, timeout: nat, ms: nat)
  {
    now.sent.Accepted? &&
    exists k: nat {:trigger Ends(now.polls, timeout, k)} ::
      Ends(now.polls, timeout, k) && now.polls[k].answer.Landed? && now.polls[k].elapsed == ms
  }

  ghost predicate Lands(now: Round, timeout: nat)
  {
    exists ms :: LandsAfter(now, timeout, ms)
  }

  /** A recorded ping is a success exactly when its transfer landed, and then it carries that time. */
  lemma SuccessIffLanded(now: Round, timeout: nat, sequence: nat, lamports: nat, p: PingData, ms: nat)
    requires Becomes(now, timeout, sequence, lamports, Recording(p))
    ensures p.success && p.ms == Some(ms) <==> LandsAfter(now, timeout, ms)
    ensures p.success <==> Lands(now, timeout)
    ensures p.success ==> p.ms.Some?
  {
    PingShape(now, timeout, sequence, lamports, p);
    if now.sent.Accepted? {
      var k: nat :| Ends(now.polls, timeout, k)
        && Recording(p) == Verdict(now.polls[k], timeout, now.sent.signature, sequence, lamports);
      OutcomeFollows(now, timeout, sequence, lamports, Recording(p), k);
      assert forall j: nat :: Ends(now.polls, timeout, j) ==> j == k;
      if p.success { assert LandsAfter(now, timeout, p.ms.value); }
    }
  }

  // ---------------------------------------------------------------- what is recorded

  function Successes(pings: seq<PingData>): nat
  {
    if pings == [] then 0
    else Successes(pings[..|pings| - 1]) + (if pings[|pings| - 1].success then 1 else 0)
  }

  /** The times of the successful pings, in order. */
  function Times(pings: seq<PingData>): seq<nat>
  {
    if pings == [] then []
    else
      var last := pings[|pings| - 1];
      Times(pings[..|pings| - 1]) + (if last.success && last.ms.Some? then [last.ms.value] else [])
  }

  ghost predicate Recorded(pings: seq<PingData>, submitCount: nat, confirmedCount: nat, times: seq<nat>)
  {
    && |pings| == submitCount
    && confirmedCount == Successes(pings) == |times|
    && times == Times(pings)
  }

  lemma RecordOne(
    pings: seq<PingData>, submitCount: nat, confirmedCount: nat, times: seq<nat>, p: PingData)
    requires Recorded(pings, submitCount, confirmedCount, times) && (p.success <==> p.ms.Some?)
    ensures Recorded(pings + [p], submitCount + 1,
                     if p.success then confirmedCount + 1 else confirmedCount,
                     if p.success then times + [p.ms.value] else times)
  {
    assert (pings + [p])[..|pings|] == pings;
  }

  /** Ping i is what became of the transfer of round i. */
  ghost predicate PingsAre(pings: seq<PingData>, w: World)
  {
    forall i {:trigger pings[i]} :: 0 <= i < |pings| ==>
      Becomes(w.round(i), w.timeout, i, SendAt(w, i).lamports, Recording(pings[i]))
  }

  ghost predicate SendsAre(sends: seq<Send>, w: World)
  {
    forall i {:trigger sends[i]} :: 0 <= i < |sends| ==> sends[i] == SendAt(w, i)
  }

  /** Every ping and every send so far is accounted for. */
  ghost predicate Books(
    pings: seq<PingData>, submitCount: nat, confirmedCount: nat, times: seq<nat>, sends: seq<Send>, w: World)
  {
    && Recorded(pings, submitCount, confirmedCount, times)
    && PingsAre(pings, w)
    && submitCount <= |sends| <= submitCount + 1
    && SendsAre(sends, w)
  }

  /** What holds of every run, however it ends. */
  ghost predicate Honest(s: Stats, w: World)
  {
    Books(s.pings, s.submitCount, s.confirmedCount, s.times, s.sends, w)
  }

  lemma SendsAreSnoc(sends: seq<Send>, w: World)
    requires SendsAre(sends, w)
    ensures SendsAre(sends + [SendAt(w, |sends|)], w)
  {
  }

  lemma PingsAreSnoc(pings: seq<PingData>, p: PingData, w: World)
    requires PingsAre(pings, w)
    requires Becomes(w.round(|pings|), w.timeout, |pings|, SendAt(w, |pings|).lamports, Recording(p))
    ensures PingsAre(pings + [p], w)
  {
  }

  /** A round sends the next transfer of the sequence. */
  lemma SendOne(s: Stats, w: World)
    requires Honest(s, w) && |s.sends| == s.submitCount
    ensures Honest(s.(sends := s.sends + [SendAt(w, s.submitCount)]), w)
  {
    SendsAreSnoc(s.sends, w);
  }

  /** The books after one more ping. */
  function WithPing(s: Stats, p: PingData): Stats
  {
    s.(pings := s.pings + [p], submitCount := s.submitCount + 1,
       confirmedCount := if p.success then s.confirmedCount + 1 else s.confirmedCount,
       times := if p.success && p.ms.Some? then s.times + [p.ms.value] else s.times)
  }

  /** A round that sent its transfer records what became of it. */
  lemma RecordRound(s: Stats, p: PingData, w: World)
    requires Honest(s, w) && |s.sends| == s.submitCount + 1
    requires Becomes(w.round(s.submitCount), w.timeout, s.submitCount, SendAt(w, s.submitCount).lamports, Recording(p))
    ensures Honest(WithPing(s, p), w)
  {
    PingShape(w.round(s.submitCount), w.timeout, s.submitCount, SendAt(w, s.submitCount).lamports, p);
    RecordOne(s.pings, s.submitCount, s.confirmedCount, s.times, p);
    PingsAreSnoc(s.pings, p, w);
  }

  // ---------------------------------------------------------------- the run

  /** The round fails before its transfer is sent. */
  predicate FailsBeforeSending(w: World, n: nat)
  {
    (w.fixed.None? && w.round(n).expired && w.round(n).renewed.None?) || !w.round(n).spendable
  }

  /** A round the run can go on after, as far as sending and the pause are concerned. */
  predicate GoesOn(w: World, i: nat)
  {
    !FailsBeforeSending(w, i) && !w.round(i).interrupted
  }

  /** Nothing stopped the run before round n. */
  ghost predicate Reached(w: World, n: nat)
  {
    forall i :: 0 <= i < n ==> GoesOn(w, i)
  }

  /** Why a run ended: a transfer without a ping means its polling was cut short or failed. */
  ghost predicate Explained(s: Stats, w: World)
  {
    var n := s.submitCount;
    if |s.sends| > n then
      && Reached(w, n) && !FailsBeforeSending(w, n)
      && match s.exit
         case CountReached => false
         case Interrupted => Becomes(w.round(n), w.timeout, n, SendAt(w, n).lamports, Cut)
         case CallFailed => Becomes(w.round(n), w.timeout, n, SendAt(w, n).lamports, Failed)
    else
      match s.exit
      case CountReached => Reached(w, n)
      case Interrupted => n > 0 && Reached(w, n - 1) && !FailsBeforeSending(w, n - 1) && w.round(n - 1).interrupted
      case CallFailed => Reached(w, n) && FailsBeforeSending(w, n)
  }

  /** The blockhash and amount of the last transfer, or of none yet. */
  ghost predicate Holding(blockhash: Hash, lamports: nat, w: World, n: nat)
  {
    if n == 0 then blockhash == StartHash(w) && lamports == 0
    else Send(blockhash, lamports) == SendAt(w, n - 1)
  }

  /** Take a new blockhash if it is due, and raise the amount; none if the round fails before sending. */
  method NextTransfer(blockhash: Hash, lamports: nat, w: World, n: nat) returns (r: Option<Send>)
    requires Holding(blockhash, lamports, w, n)
    ensures r.None? <==> (w.fixed.None? && w.round(n).expired && w.round(n).renewed.None?) || !w.round(n).spendable
    ensures r.Some? ==> r.value == SendAt(w, n)
  {
    var hash, amount := blockhash, lamports;
    if w.fixed.None? && w.round(n).expired {
      if w.round(n).renewed.None? { return None; }
      hash, amount := w.round(n).renewed.value, 0;
    }
    amount := amount + 1;
    if !w.round(n).spendable { return None; }
    return Some(Send(hash, amount));
  }

  method DoRound(s: Stats, send: Send, w: World) returns (r: Stats)
    requires TimePasses(w) && Honest(s, w)
    requires s.exit == CountReached && |s.sends| == s.submitCount
    requires send == SendAt(w, s.submitCount)
    requires Reached(w, s.submitCount) && !FailsBeforeSending(w, s.submitCount)
    ensures Honest(r, w) && Explained(r, w)
    ensures s.submitCount <= r.submitCount <= s.submitCount + 1
    ensures r.exit == CountReached ==> r.submitCount == s.submitCount + 1 == |r.sends|
    ensures |r.sends| > r.submitCount || r.exit == CallFailed ==> r.submitCount == s.submitCount
  {
    var sequence := s.submitCount;
    var now := w.round(sequence);
    SendOne(s, w);
    r := s.(sends := s.sends + [send]);
    var polled := SendAndPoll(now, w.timeout, sequence, send.lamports);
    match polled {
      case Failed => return r.(exit := CallFailed);
      case Cut => return r.(exit := Interrupted);
      case Recording(ping) =>
        RecordRound(r, ping, w);
        r := WithPing(r, ping);
    }
    if now.interrupted { return r.(exit := Interrupted); }
  }

  function Limit(count: Option<nat>): nat
  {
    if count.Some? then count.value else U64_MAX
  }

  /** The end of a run: the books are right, the exit is explained, and only the count stops it otherwise. */
  ghost predicate Ended(s: Stats, count: Option<nat>, w: World)
  {
    && Honest(s, w) && Explained(s, w)
    && s.submitCount <= Limit(count)
    && (s.exit == CountReached ==> s.submitCount == Limit(count))
    && (|s.sends| > s.submitCount || s.exit == CallFailed ==> s.submitCount < Limit(count))
  }

  /** The whole run. */
  method ProcessPing(count: Option<nat>, w: World) returns (s: Stats)
    requires TimePasses(w) && (count.Some? ==> count.value <= U64_MAX)
    ensures Ended(s, count, w)
  {
    s := Stats([], 0, 0, [], [], CountReached);
    var blockhash, lamports := StartHash(w), 0;
    while s.submitCount < Limit(count)
      invariant s.submitCount == |s.sends| <= Limit(count) && s.exit == CountReached
      invariant Honest(s, w) && Explained(s, w) && Holding(blockhash, lamports, w, s.submitCount)
    {
      var next := NextTransfer(blockhash, lamports, w, s.submitCount);
      if next.None? {
        s := s.(exit := CallFailed);
        return;
      }
      s := DoRound(s, next.value, w);
      if s.exit != CountReached { return; }
      blockhash, lamports := next.value.blockhash, next.value.lamports;
    }
  }

  // ---------------------------------------------------------------- every run

  /** A run never goes over its count, and ends by it exactly when it gets there without an interrupt at the end. */
  lemma CountReachedIff(s: Stats, count: Option<nat>, w: World)
    requires Ended(s, count, w)
    ensures var limit := match count { case Some(n) => n case None => U64_MAX };
            && s.submitCount <= limit
            && (s.exit == CountReached <==>
                  s.submitCount == limit && (limit > 0 ==> !w.round(limit - 1).interrupted))
  {
    var n := s.submitCount;
    assert n > 0 && Reached(w, n) ==> GoesOn(w, n - 1);
  }

  /** Two runs in the same world record the same pings, as far as both go. */
  lemma SamePings(a: Stats, b: Stats, w: World)
    requires PingsAre(a.pings, w) && PingsAre(b.pings, w) && |a.pings| <= |b.pings|
    ensures a.pings == b.pings[..|a.pings|]
  {
    forall i | 0 <= i < |a.pings| ensures a.pings[i] == b.pings[i] {
      BecomesOnce(w.round(i), w.timeout, i, SendAt(w, i).lamports, Recording(a.pings[i]), Recording(b.pings[i]));
    }
  }

  /** A run that recorded a ping for round n got through sending in it, and through all earlier pauses. */
  lemma PingMeansReached(s: Stats, w: World, n: nat)
    requires Explained(s, w) && n < s.submitCount
    ensures Reached(w, n) && !FailsBeforeSending(w, n)
  {
    assert GoesOn(w, n) || n == s.submitCount - 1;
  }

  /** The outcome of the last transfer of a run that stopped while polling. */
  function LastOutcome(s: Stats): Polled
  {
    if s.exit == Interrupted then Cut else Failed
  }

  /** A run that ended cannot have ended earlier. */
  lemma EndsNoEarlier(a: Stats, b: Stats, count: Option<nat>, w: World)
    requires Ended(a, count, w) && Ended(b, count, w)
    ensures a.submitCount >= b.submitCount
  {
    var n := a.submitCount;
    assert n > 0 && Reached(w, n) ==> GoesOn(w, n - 1);
    if n < b.submitCount {
      PingMeansReached(b, w, n);
      var ping := Recording(b.pings[n]);
      if |a.sends| > n {
        BecomesOnce(w.round(n), w.timeout, n, SendAt(w, n).lamports, LastOutcome(a), ping);
      }
    }
  }

  /** Runs that stop in the same round stop for the same reason. */
  lemma SameExit(a: Stats, b: Stats, count: Option<nat>, w: World)
    requires Ended(a, count, w) && Ended(b, count, w) && a.submitCount == b.submitCount
    ensures a.exit == b.exit && |a.sends| == |b.sends|
  {
    var n := a.submitCount;
    assert n > 0 && Reached(w, n) ==> GoesOn(w, n - 1);
    if |a.sends| > n && |b.sends| > n {
      BecomesOnce(w.round(n), w.timeout, n, SendAt(w, n).lamports, LastOutcome(a), LastOutcome(b));
    }
  }

  /** What `Ended` says determines the run: pings, counts, times, transfers and exit. */
  lemma OneRun(a: Stats, b: Stats, count: Option<nat>, w: World)
    requires Ended(a, count, w) && Ended(b, count, w)
    ensures a == b
  {
    EndsNoEarlier(a, b, count, w);
    EndsNoEarlier(b, a, count, w);
    SamePings(a, b, w);
    SameExit(a, b, count, w);
    assert a.pings == b.pings && a.sends == b.sends;
  }

  /** The times are those of the rounds whose transfers landed, in order, one for each. */
  ghost predicate TimesOfLanded(times: seq<nat>, w: World, n: nat)
    decreases n
  {
    if n == 0 then times == []
    else if Lands(w.round(n - 1), w.timeout) then
      && times != []
      && LandsAfter(w.round(n - 1), w.timeout, times[|times| - 1])
      && TimesOfLanded(times[..|times| - 1], w, n - 1)
    else TimesOfLanded(times, w, n - 1)
  }

  lemma OneMoreTime(times: seq<nat>, w: World, n: nat, p: PingData)
    requires TimesOfLanded(times, w, n)
    requires Becomes(w.round(n), w.timeout, n, SendAt(w, n).lamports, Recording(p))
    ensures TimesOfLanded(if p.success && p.ms.Some? then times + [p.ms.value] else times, w, n + 1)
  {
    SuccessIffLanded(w.round(n), w.timeout, n, SendAt(w, n).lamports, p, if p.ms.Some? then p.ms.value else 0);
    if p.success && p.ms.Some? {
      assert (times + [p.ms.value])[..|times|] == times;
    }
  }

  lemma TimesLast(pings: seq<PingData>)
    requires pings != []
    ensures var init, p := pings[..|pings| - 1], pings[|pings| - 1];
            Times(pings) == if p.success && p.ms.Some? then Times(init) + [p.ms.value] else Times(init)
  {
  }

  lemma {:induction false} TimesAreOfLanded(pings: seq<PingData>, w: World)
    requires PingsAre(pings, w)
    ensures TimesOfLanded(Times(pings), w, |pings|)
  {
    if pings != [] {
      var n := |pings| - 1;
      TimesAreOfLanded(pings[..n], w);
      assert Becomes(w.round(n), w.timeout, n, SendAt(w, n).lamports, Recording(pings[n]));
      OneMoreTime(Times(pings[..n]), w, n, pings[n]);
      TimesLast(pings);
    }
  }

  /** In any run the confirmed transfers are those that landed, each with its own time. */
  lemma ConfirmedAreLanded(s: Stats, w: World)
    requires Honest(s, w)
    ensures s.confirmedCount == |s.times| && TimesOfLanded(s.times, w, s.submitCount)
  {
    TimesAreOfLanded(s.pings, w);
  }

  /** In any run, however it ends, no transfer goes out twice exactly when no acquired blockhash repeats. */
  lemma RunRepeatsNoTransferIffHashesDiffer(s: Stats, w: World)
    requires Honest(s, w)
    ensures (forall i, j :: 0 <= i < j < |s.sends| ==> s.sends[i] != s.sends[j]) <==> HashesDifferent(w, |s.sends|)
    ensures w.fixed.Some? ==> forall i, j :: 0 <= i < j < |s.sends| ==> s.sends[i] != s.sends[j]
  {
    SendsDifferIffHashesDiffer(w, |s.sends|);
    assert forall i :: 0 <= i < |s.sends| ==> SendAt(w, i) == s.sends[i];
    if w.fixed.Some? {
      forall i | 0 <= i < |s.sends| ensures s.sends[i].lamports == i + 1 { FixedHashSends(w, i); }
    }
  }
}
