/** What a paid execution reports, and when: that it finds the settlement of a purchase, gives up where it must and
    goes on to the next exit where it may. */
module PaidReports {
  import opened Outcomes
  import opened PaidQuotes
  import opened PaidLedger
  import opened PaidExecution

  /** The settlement of q, as position in the history. */
  predicate SettlesAt(l: Ledger, q: Quote, b: nat, i: nat) {
    i < |l.settlements(b)| && l.settlements(b)[i].quote == q
  }

  /** The result that reports an event. */
  ghost predicate Reports(r: PaidResult, log: Log, maximumGas: nat) {
    if log.success then r == Settled(log, maximumGas) else r == ActionFailed(log)
  }

  /* ----- awaitSettlement ----- */

  /** A round in which the execution is not seen consumed, before the wait is over. */
  predicate SeesNothing(l: Ledger, q: Quote, deadlineMs: int, poll: Poll) {
    (poll.fails || !Consumed(l, ByExecution(l.hash(q)), poll.block + poll.lag)) && poll.nowMs < deadlineMs
  }

  /** A round that reads everything, up to a block that holds the settlement. */
  ghost predicate Covers(poll: Poll, fromBlock: nat, b: nat) {
    !poll.fails && fromBlock <= b <= poll.block && forall t :: !poll.answers.fails(t)
  }

  lemma SettlesBeforeItsDeadline(l: Ledger, q: Quote, b: nat, i: nat, block: nat, lag: nat)
    requires Lawful(l) && SettlesAt(l, q, b, i) && !Consumed(l, ByExecution(l.hash(q)), block + lag)
    ensures l.time(block) <= q.validUntil
  {
    hide Consumed;
    assert SettlesIn(l, q, b);
    if l.time(block) > q.validUntil {
      ExpiredIsFinal(l, q, block, lag);
      assert false;
    }
  }

  lemma CoveredIsConsumed(l: Ledger, query: Query, b: nat, i: nat, block: nat)
    requires HitAt(l, query, b, i) && b <= block
    ensures Consumed(l, query, block)
  {
    assert BlockHits(l, query, b);
  }

  /** The first round that sees the execution consumed and covers its settlement reports it. */
  lemma {:induction false} AwaitReports(l: Ledger, s: Settings, q: Quote, fromBlock: nat, deadlineMs: int,
                                        polls: seq<Poll>, k: nat, b: nat, i: nat)
    requires Lawful(l) && Buys(s, q) && q.feeAsset == s.feeAsset && SettlesAt(l, q, b, i)
    requires k < |polls| && Covers(polls[k], fromBlock, b)
    requires forall j :: 0 <= j < k ==> SeesNothing(l, q, deadlineMs, polls[j])
    ensures var e := AwaitOf(l, s, q, fromBlock, deadlineMs, polls);
      e.Final? && Reports(e.result, l.settlements(b)[i].log, q.maximumGas)
    decreases k
  {
    hide Lawful, Consumed, SettlementMatches, FoundIn, Buys, Truthful;
    var poll := polls[0];
    var id := ByExecution(l.hash(q));
    assert HitAt(l, id, b, i);
    if k == 0 {
      CoveredIsConsumed(l, id, b, i, poll.block + poll.lag);
      SettlementIsFound(l, id, fromBlock, poll.block, poll.answers.fails, b, i);
      assert IsEvent(l, id, fromBlock, poll.block, l.settlements(b)[i].log);
      EventMatches(l, s, q, fromBlock, poll.block, l.settlements(b)[i].log);
    } else {
      assert SeesNothing(l, q, deadlineMs, poll);
      if !poll.fails { SettlesBeforeItsDeadline(l, q, b, i, poll.block, poll.lag); }
      AwaitReports(l, s, q, fromBlock, deadlineMs, polls[1..], k - 1, b, i);
    }
  }

  /** The first round that sees the execution unconsumed past its deadline calls it expired. */
  lemma {:induction false} AwaitExpires(l: Ledger, s: Settings, q: Quote, fromBlock: nat, deadlineMs: int,
                                        polls: seq<Poll>, k: nat)
    requires k < |polls| && !polls[k].fails && l.time(polls[k].block) > q.validUntil
    requires !Consumed(l, ByExecution(l.hash(q)), polls[k].block + polls[k].lag)
    requires forall j :: 0 <= j < k ==> SeesNothing(l, q, deadlineMs, polls[j])
    requires forall j :: 0 <= j < k ==> polls[j].fails || l.time(polls[j].block) <= q.validUntil
    ensures AwaitOf(l, s, q, fromBlock, deadlineMs, polls) == Expired
    decreases k
  {
    hide Consumed;
    if k > 0 {
      assert SeesNothing(l, q, deadlineMs, polls[0]);
      AwaitExpires(l, s, q, fromBlock, deadlineMs, polls[1..], k - 1);
    }
  }

  /** A round that decides nothing at or after the end of the wait gives the execution up as unknown. */
  lemma {:induction false} AwaitGivesUp(l: Ledger, s: Settings, q: Quote, fromBlock: nat, deadlineMs: int,
                                        polls: seq<Poll>, k: nat)
    requires k < |polls| && polls[k].fails && polls[k].nowMs >= deadlineMs
    requires forall j :: 0 <= j < k ==> SeesNothing(l, q, deadlineMs, polls[j])
    requires forall j :: 0 <= j < k ==> polls[j].fails || l.time(polls[j].block) <= q.validUntil
    ensures AwaitOf(l, s, q, fromBlock, deadlineMs, polls) == Final(Unknown(Some(l.hash(q)), Some(q.validUntil)))
    decreases k
  {
    hide Consumed;
    if k > 0 {
      assert SeesNothing(l, q, deadlineMs, polls[0]);
      AwaitGivesUp(l, s, q, fromBlock, deadlineMs, polls[1..], k - 1);
    }
  }

  /** How long it waits: what the caller set, else until the quote has expired by the clock and a minute more. */
  lemma AwaitLasts(s: Settings, ready: Ready, q: Quote, turn: Turn)
    ensures s.timeoutMs.Some? ==> AwaitUntil(s, ready, q, turn) == turn.confirmMs + s.timeoutMs.value
    ensures s.timeoutMs.None? ==>
      var left := q.validUntil - NowUnix(ready, turn.confirmMs);
      AwaitUntil(s, ready, q, turn) == turn.confirmMs + 60_000 + if left > 0 then 1_000 * left else 0
  {
    hide NowUnix;
  }

  /* ----- resume ----- */

  /** A settlement by this payment within the lookback, read with the quote it executed: reported as settled, or as
      spent on another action. */
  lemma ResumeReports(l: Ledger, s: Settings, block: nat, answers: Answers, b: nat, i: nat)
    requires Lawful(l) && HitAt(l, ByPayment(s.paymentId), b, i) && b <= block <= b + s.lookback
    requires !answers.inputFails && forall t :: !answers.fails(t)
    requires l.input(l.settlements(b)[i].log.transaction) == Some(l.settlements(b)[i].quote)
    ensures var (q, log, r) := (l.settlements(b)[i].quote, l.settlements(b)[i].log, Resumed(l, s, block, answers));
      var same := (q.intentId, q.calldataHash, q.target) == (s.intentId, s.calldataHash, s.target);
      && r.Some?
      && (same ==> Reports(r.value, log, q.maximumGas))
      && (!same ==> r.value == NotPaid(Precheck, "PAYMENT_CONSUMED"))
  {
    hide FoundIn;
    var first := if block > s.lookback then block - s.lookback else 0;
    SettlementIsFound(l, ByPayment(s.paymentId), first, block, answers.fails, b, i);
    assert SettlesLawfully(l, l.settlements(b)[i], b);
  }

  /** The transaction of the settlement cannot be read, or carries another quote: unknown, but with the execution. */
  lemma ResumeCannotLink(l: Ledger, s: Settings, block: nat, answers: Answers, b: nat, i: nat)
    requires Lawful(l) && HitAt(l, ByPayment(s.paymentId), b, i) && b <= block <= b + s.lookback
    requires !answers.inputFails && forall t :: !answers.fails(t)
    requires l.input(l.settlements(b)[i].log.transaction) != Some(l.settlements(b)[i].quote)
    ensures Resumed(l, s, block, answers) == Some(Unknown(Some(l.hash(l.settlements(b)[i].quote)), None))
  {
    hide FoundIn;
    var first := if block > s.lookback then block - s.lookback else 0;
    SettlementIsFound(l, ByPayment(s.paymentId), first, block, answers.fails, b, i);
    assert SettlesLawfully(l, l.settlements(b)[i], b);
  }

  lemma EventHits(l: Ledger, query: Query, first: int, last: int, log: Log)
    requires IsEvent(l, query, first, last, log)
    ensures exists b: nat :: first <= b <= last && BlockHits(l, query, b)
  {
    var b: nat, i: nat :| first <= b <= last && HitAt(l, query, b, i) && l.settlements(b)[i].log == log;
    HitMeansHits(l, query, b, i);
  }

  /** Nothing in the lookback: unknown. */
  lemma ResumeFindsNothing(l: Ledger, s: Settings, block: nat, answers: Answers)
    requires Lawful(l) && forall t :: !answers.fails(t)
    requires forall b: nat :: b <= block <= b + s.lookback ==> !BlockHits(l, ByPayment(s.paymentId), b)
    ensures Resumed(l, s, block, answers) == Some(Unknown(None, None))
  {
    hide FoundIn, BlockHits, Lawful;
    var first := if block > s.lookback then block - s.lookback else 0;
    FoundIsExact(l, ByPayment(s.paymentId), first, block, answers.fails);
    if FoundIn(l, ByPayment(s.paymentId), first, block, answers.fails).value.Some? {
      EventHits(l, ByPayment(s.paymentId), first, block, FoundIn(l, ByPayment(s.paymentId), first, block, answers.fails).value.value);
      assert false;
    }
  }

  /* ----- paymentEvidence ----- */

  /** A round in which the loop that waits learns nothing before the wait is over. */
  predicate Waits(l: Ledger, s: Settings, validUntil: nat, deadlineMs: int, poll: Poll) {
    && poll.nowMs < deadlineMs
    && (poll.fails || (!Consumed(l, ByPayment(s.paymentId), poll.block + poll.lag) && l.time(poll.block) <= validUntil))
  }

  /** The first round that decides, decides; extending the wait does not change that. */
  lemma {:induction false} EvidenceDecides(l: Ledger, s: Settings, q: Pending, deadlineMs: int, extended: bool,
                                           polls: seq<Poll>, k: nat)
    requires k < |polls| && EvidenceIn(l, s, q, true, polls[k]).Some?
    requires forall j :: 0 <= j < k ==> Waits(l, s, q.validUntil, deadlineMs, polls[j])
    ensures EvidenceOf(l, s, q, true, deadlineMs, extended, polls) == EvidenceIn(l, s, q, true, polls[k]).value
    decreases k
  {
    hide Consumed, Resumed;
    if k > 0 {
      assert Waits(l, s, q.validUntil, deadlineMs, polls[0]);
      var longer := !extended && Extends(l, s, polls[0]);
      var later := if longer then deadlineMs + (q.validUntil - l.time(polls[0].block)) * 1000 else deadlineMs;
      assert forall j :: 0 <= j < k - 1 ==> polls[1..][j] == polls[j + 1];
      assert forall j :: 0 < j < k ==> Waits(l, s, q.validUntil, later, polls[j]);
      EvidenceDecides(l, s, q, later, extended || longer, polls[1..], k - 1);
    }
  }

  /** The payment id seen unconsumed past the deadline: expired. */
  lemma ExpiryDecides(l: Ledger, s: Settings, q: Pending, wait: bool, poll: Poll)
    requires !poll.fails && !Consumed(l, ByPayment(s.paymentId), poll.block + poll.lag) && l.time(poll.block) > q.validUntil
    ensures EvidenceIn(l, s, q, wait, poll) == Some(Expired)
  {
    hide Consumed;
  }

  /** The payment id seen consumed: what resume makes of it. */
  lemma ConsumptionDecides(l: Ledger, s: Settings, q: Pending, wait: bool, poll: Poll)
    requires !poll.fails && Consumed(l, ByPayment(s.paymentId), poll.block + poll.lag)
    requires Resumed(l, s, poll.block, poll.answers).Some?
    ensures EvidenceIn(l, s, q, wait, poll) == Some(Final(Resumed(l, s, poll.block, poll.answers).value))
  {
    hide Consumed, Resumed;
  }

  /** Without waiting, one round answers: unconsumed when it read so, unknown when it could not read. */
  lemma OneRoundAnswers(l: Ledger, s: Settings, q: Pending, deadlineMs: int, extended: bool, polls: seq<Poll>)
    requires polls != []
    ensures var e := EvidenceOf(l, s, q, false, deadlineMs, extended, polls);
      && (polls[0].fails ==> e == Final(Unknown(Some(q.executionId), Some(q.validUntil))))
      && ((!polls[0].fails && !Consumed(l, ByPayment(s.paymentId), polls[0].block + polls[0].lag)
           && l.time(polls[0].block) <= q.validUntil) ==> e == Unconsumed)
  {
    hide Consumed, Resumed;
  }

  /** Unless the caller set its own timeout, the loop does not give up before the quote expires, and a minute
      more: counted from the first round that read the chain time. */
  lemma WaitsForExpiry(l: Ledger, s: Settings, q: Pending, startMs: nat, polls: seq<Poll>)
    requires polls != [] && !polls[0].fails && s.timeoutMs.None?
    requires polls[0].nowMs < startMs + 60_000 + (q.validUntil - l.time(polls[0].block)) * 1000
    requires !Consumed(l, ByPayment(s.paymentId), polls[0].block + polls[0].lag) && l.time(polls[0].block) <= q.validUntil
    requires forall j :: 0 < j < |polls| ==>
      Waits(l, s, q.validUntil, startMs + 60_000 + (q.validUntil - l.time(polls[0].block)) * 1000, polls[j])
    ensures EvidenceOf(l, s, q, true, startMs + Patience(s), s.timeoutMs.Some?, polls) == Running
  {
    hide Consumed, Resumed;
    var later := startMs + 60_000 + (q.validUntil - l.time(polls[0].block)) * 1000;
    assert forall j :: 0 <= j < |polls[1..]| ==> polls[1..][j] == polls[j + 1];
    StillWaiting(l, s, q, later, polls[1..]);
  }

  lemma {:induction false} StillWaiting(l: Ledger, s: Settings, q: Pending, deadlineMs: int, polls: seq<Poll>)
    requires forall j :: 0 <= j < |polls| ==> Waits(l, s, q.validUntil, deadlineMs, polls[j])
    ensures EvidenceOf(l, s, q, true, deadlineMs, true, polls) == Running
    decreases |polls|
  {
    hide Consumed, Resumed;
    if polls != [] {
      assert Waits(l, s, q.validUntil, deadlineMs, polls[0]);
      StillWaiting(l, s, q, deadlineMs, polls[1..]);
    }
  }

  /* ----- step 1 ----- */

  /** Nothing stands against asking for a quote. */
  predicate Clear(l: Ledger, s: Settings, start: Start) {
    && start.actionAllowed && !start.fails && !start.laterFails
    && !Consumed(l, ByPayment(s.paymentId), start.block + start.paymentLag)
    && !Consumed(l, ByIntent(s.intentId), start.block + start.intentLag)
    && (s.pending.Some? ==> l.time(start.block) > s.pending.value.validUntil)
  }

  /** The purchase goes on exactly then, and otherwise says why. */
  lemma GoesOnExactly(l: Ledger, s: Settings, start: Start)
    ensures CheckedOf(l, s, start).Proceed? <==> Clear(l, s, start)
    ensures Clear(l, s, start) ==> CheckedOf(l, s, start).ready.block == start.block
    ensures Clear(l, s, start) ==> CheckedOf(l, s, start).ready.time == l.time(start.block)
    ensures (start.actionAllowed && !start.fails && s.pending.Some? && l.time(start.block) <= s.pending.value.validUntil
             && !Consumed(l, ByPayment(s.paymentId), start.block + start.paymentLag)
             && !Consumed(l, ByIntent(s.intentId), start.block + start.intentLag)) ==>
      CheckedOf(l, s, start) == Stopped(Unknown(Some(s.pending.value.executionId), Some(s.pending.value.validUntil)))
  {
    hide Consumed, Resumed;
  }

  /** Why a purchase stops before its first quote: the reads come first, then the flags, then what is pending. */
  lemma SaysWhyNot(l: Ledger, s: Settings, start: Start)
    ensures var paid := Consumed(l, ByPayment(s.paymentId), start.block + start.paymentLag);
      var done := Consumed(l, ByIntent(s.intentId), start.block + start.intentLag);
      var resumed := Resumed(l, s, start.block, start.answers);
      && (!start.actionAllowed ==> CheckedOf(l, s, start) == Stopped(NotPaid(Precheck, "ACTION_REFUSED")))
      && (start.actionAllowed && start.fails ==> CheckedOf(l, s, start) == Stopped(NotPaid(Precheck, "CHAIN_READ_FAILED")))
      && (start.actionAllowed && !start.fails ==>
          && (done && !paid ==> CheckedOf(l, s, start) == Stopped(NotPaid(Precheck, "INTENT_CONSUMED")))
          && (paid && !done ==> CheckedOf(l, s, start) == Stopped(NotPaid(Precheck, "PAYMENT_CONSUMED")))
          && (paid && done && resumed.Some? ==> CheckedOf(l, s, start) == Stopped(resumed.value))
          && (paid && done && resumed.None? ==> CheckedOf(l, s, start) == Stopped(Unknown(None, None)))
          && (!paid && !done && start.laterFails && s.pending.None? ==>
              CheckedOf(l, s, start) == Stopped(NotPaid(Precheck, "CHAIN_READ_FAILED"))))
  {
    hide Consumed, Resumed;
  }

  /** Calling again after the purchase settled reports that settlement instead of paying twice. */
  lemma CallingAgainResumes(l: Ledger, s: Settings, start: Start, turns: nat -> Turn, evidenceMs: nat, polls: seq<Poll>,
                            b: nat, i: nat)
    requires Lawful(l) && HitAt(l, ByPayment(s.paymentId), b, i) && b <= start.block <= b + s.lookback
    requires SameAction(s, l.settlements(b)[i].quote)
    requires start.actionAllowed && !start.fails && !start.answers.inputFails && forall t :: !start.answers.fails(t)
    requires l.input(l.settlements(b)[i].log.transaction) == Some(l.settlements(b)[i].quote)
    ensures var r := RunOf(l, s, start, turns, evidenceMs, polls);
      r.Some? && Reports(r.value, l.settlements(b)[i].log, l.settlements(b)[i].quote.maximumGas)
  {
    hide Lawful, Resumed, AttemptOf, Consumed;
    CoveredIsConsumed(l, ByPayment(s.paymentId), b, i, start.block + start.paymentLag);
    assert HitAt(l, ByIntent(s.intentId), b, i);
    CoveredIsConsumed(l, ByIntent(s.intentId), b, i, start.block + start.intentLag);
    ResumeReports(l, s, start.block, start.answers, b, i);
  }

  /* ----- quotes ----- */

  /** A quote is taken exactly when a valid request was sent and the exit that answers signed a quote of version 1
      for itself, whose id is its hash, that is bounded and matches the request. */
  lemma QuoteTakenExactly(l: Ledger, s: Settings, ready: Ready, plan: GasPlan, turn: Turn)
    requires turn.exit.Some?
    ensures var (asked, request) := (AskQuote(l, s, ready, plan, turn), RequestFor(s, ready, plan, turn));
      && (asked.Quoted? <==>
          && RequestIsValid(request, turn.chainTime) && turn.reply.Replied?
          && turn.reply.signed.quote.version == 1
          && turn.reply.signed.quote.exit == turn.reply.signed.from
          && turn.reply.signed.executionId == l.hash(turn.reply.signed.quote)
          && turn.reply.signed.signer == Some(turn.reply.signed.from)
          && QuoteIsBounded(turn.reply.signed.quote) && QuoteMatches(turn.reply.signed.quote, request))
      && (asked.Quoted? ==> asked.quote == turn.reply.signed.quote)
  {
    hide QuoteIsBounded, QuoteMatches, RequestIsValid, RequestFor;
  }

  /** What the turn says when there is no quote. */
  lemma NoQuoteSays(l: Ledger, s: Settings, ready: Ready, plan: GasPlan, turn: Turn)
    requires turn.exit.Some? && RequestIsValid(RequestFor(s, ready, plan, turn), turn.chainTime)
    ensures turn.reply.Rejected? ==> AskQuote(l, s, ready, plan, turn) == Again(NotPaid(QuoteStage, turn.reply.code), 1)
    ensures turn.reply.TimedOut? ==> AskQuote(l, s, ready, plan, turn) == Again(NotPaid(QuoteStage, "ResponseTimeout"), 2)
    ensures turn.reply.Undecryptable? ==>
      AskQuote(l, s, ready, plan, turn) == Again(NotPaid(QuoteStage, "DecryptionFailed"), 1)
    ensures turn.reply.Failed? ==> AskQuote(l, s, ready, plan, turn) == Stop(NotPaid(QuoteStage, turn.reply.code))
  {
    hide RequestIsValid, RequestFor;
  }

  /** A quote taken is for this purchase in every field, valid for no longer than two minutes, costs something and
      leaves the EntryPoint its reserve. */
  lemma QuoteIsForThis(l: Ledger, s: Settings, ready: Ready, bufferBps: nat, turn: Turn)
    requires SentIn(l, s, ready, bufferBps, turn).Some?
    ensures var q := SentIn(l, s, ready, bufferBps, turn).value;
      && q.chainId == s.chainId && q.entryPoint == s.entryPoint && q.intentId == s.intentId && q.adapter == s.adapter
      && q.paymentId == s.paymentId && q.feeAsset == s.feeAsset && q.target == s.target
      && q.calldataHash == s.calldataHash && q.assetsHash == s.assetsHash && q.returnLimit == s.returnLimit
      && q.paymentGas == s.paymentGas && q.actionGas == ready.actionGas
      && q.validUntil <= NowUnix(ready, turn.requestMs) + 120
      && q.validAfter <= q.validUntil && q.exitFee + q.networkFee > 0 && q.maximumFeePerGas > 0 && q.returnLimit <= 4_096
      && q.maximumGas >= q.paymentGas + q.actionGas + 250_000
      && PlanPaidGas(GasInput(s.paymentGas, ready.actionGas, s.calldataGas, ready.dataFeeGas, bufferBps, s.headroomBps,
                              s.dataFeeBps, s.clamp)).Some?
      && q.maximumGas == PlanPaidGas(GasInput(s.paymentGas, ready.actionGas, s.calldataGas, ready.dataFeeGas, bufferBps,
                                              s.headroomBps, s.dataFeeBps, s.clamp)).value.maximumGas
  {
    hide Refusal, PlanPaidGas, NowUnix, RequestIsValid;
  }

  /** What is asked for: a quote for this purchase under the planned gas, valid for two minutes from the clock. */
  lemma RequestIsPlanned(s: Settings, ready: Ready, plan: GasPlan, turn: Turn)
    ensures var r := RequestFor(s, ready, plan, turn);
      && r.validUntil == NowUnix(ready, turn.requestMs) + 120 && r.maximumGas == plan.maximumGas
      && r.actionGas == ready.actionGas && r.paymentGas == s.paymentGas && r.returnLimit == s.returnLimit
      && (r.chainId, r.entryPoint, r.intentId, r.adapter) == (s.chainId, s.entryPoint, s.intentId, s.adapter)
      && (r.paymentId, r.feeAsset, r.target) == (s.paymentId, s.feeAsset, s.target)
      && (r.calldataHash, r.assetsHash) == (s.calldataHash, s.assetsHash)
  {
    hide NowUnix;
  }

  /** The clock of the checks: never behind chain time, the time since it was read, or the local clock, and never
      ahead of all of them. */
  lemma ClockIsTheLatest(ready: Ready, nowMs: nat)
    ensures NowUnix(ready, nowMs) >= ready.time && NowUnix(ready, nowMs) >= nowMs / 1000
    ensures nowMs >= ready.nowMs ==> NowUnix(ready, nowMs) >= ready.time + (nowMs - ready.nowMs) / 1000
    ensures NowUnix(ready, nowMs) in {ready.time, nowMs / 1000}
      || (nowMs >= ready.nowMs && NowUnix(ready, nowMs) == ready.time + (nowMs - ready.nowMs) / 1000)
  {}

  /** A quote is submitted exactly when its fee is within the cap, it is active, time is left before the proof and
      after the simulation, payment data of the declared size was built, the simulation succeeds within the gas
      plan, and the call is no dry run. */
  lemma SubmitsExactly(l: Ledger, s: Settings, ready: Ready, plan: GasPlan, bufferBps: nat, q: Quote, turn: Turn)
    ensures Refusal(l, s, ready, plan, bufferBps, q, turn).None? <==>
      && q.exitFee + q.networkFee <= s.maxTotalFee
      && (q.validAfter <= NowUnix(ready, turn.activeMs)
          || (turn.latestTime.Some? && q.validAfter <= turn.latestTime.value))
      && q.validUntil >= NowUnix(ready, turn.headroomMs) + s.minHeadroom
      && q.validUntil >= NowUnix(ready, turn.submitMs) + s.minHeadroom
      && turn.paymentData.Some? && 0 < turn.paymentData.value <= s.paymentDataLength
      && turn.simulation.Some? && turn.simulation.value.1
      && turn.simulation.value.0 * (10_000 + bufferBps) <= plan.maximumGas * 10_000
      && !s.dryRun
  {
    hide CeilDiv, NowUnix;
    if turn.simulation.Some? {
      CeilDivExact(Times(turn.simulation.value.0, BPS + bufferBps), BPS, plan.maximumGas);
    }
  }

  /** The failure that is named is one that happened. */
  lemma RefusalNames(l: Ledger, s: Settings, ready: Ready, plan: GasPlan, bufferBps: nat, q: Quote, turn: Turn)
    ensures var r := Refusal(l, s, ready, plan, bufferBps, q, turn);
      && (q.exitFee + q.networkFee > s.maxTotalFee <==> r == Some(NotPaid(FeeCap, "FEE_ABOVE_MAXIMUM")))
      && (r == Some(NotPaid(QuoteStage, "CHAIN_READ_FAILED")) ==>
          q.validAfter > NowUnix(ready, turn.activeMs) && turn.latestTime.None?)
      && (r == Some(NotPaid(QuoteStage, "QUOTE_NOT_ACTIVE")) ==>
          q.validAfter > NowUnix(ready, turn.activeMs) && turn.latestTime.Some? && q.validAfter > turn.latestTime.value)
      && (r == Some(NotPaid(Expiry, "QUOTE_HEADROOM")) ==>
          q.validUntil < NowUnix(ready, turn.headroomMs) + s.minHeadroom
          || q.validUntil < NowUnix(ready, turn.submitMs) + s.minHeadroom)
      && (r == Some(NotPaid(Payment, "PAYMENT_BUILD_FAILED")) ==>
          turn.paymentData.None? || turn.paymentData.value == 0 || turn.paymentData.value > s.paymentDataLength)
      && (r == Some(NotPaid(Preflight, "SIMULATION_FAILED")) ==> turn.simulation.None?)
      && (r == Some(NotPaid(Preflight, "ACTION_WOULD_FAIL")) ==> turn.simulation.Some? && !turn.simulation.value.1)
      && (r == Some(NotPaid(Preflight, "GAS_CAP_TOO_LOW")) ==>
          turn.simulation.Some? && turn.simulation.value.0 * (10_000 + bufferBps) > plan.maximumGas * 10_000)
      && ((r.Some? && r.value.DryRun?) ==>
          (s.dryRun && r.value.executionId == l.hash(q)
           && turn.simulation.Some? && r.value.estimate == turn.simulation.value.0))
  {
    hide CeilDiv, NowUnix;
    if turn.simulation.Some? {
      CeilDivExact(Times(turn.simulation.value.0, BPS + bufferBps), BPS, plan.maximumGas);
    }
  }

  /* ----- the loop ----- */

  /** The first n turns are taken and bring no quote. */
  ghost predicate PassingTurns(l: Ledger, s: Settings, ready: Ready, turns: nat -> Turn, n: nat) {
    forall k :: 0 <= k < n ==> Turns(l, s, ready, turns, k) && Passes(l, s, ready, turns, k)
  }

  /** What the last of n turns said. */
  ghost function Said(l: Ledger, s: Settings, ready: Ready, turns: nat -> Turn, n: nat): PaidResult
    requires PassingTurns(l, s, ready, turns, n)
  {
    if n == 0 then NO_EXIT
    else
      assert Turns(l, s, ready, turns, n - 1) && Passes(l, s, ready, turns, n - 1);
      AskQuote(l, s, ready, PlanPaidGas(GasFor(s, ready, BufferAt(l, s, ready, turns, n - 1))).value, turns(n - 1)).last
  }

  lemma {:induction false} PassingTurnsGoOn(l: Ledger, s: Settings, ready: Ready, turns: nat -> Turn, n: nat)
    requires PassingTurns(l, s, ready, turns, n)
    ensures AttemptOf(l, s, ready, turns, 0, NO_EXIT) == AttemptOf(l, s, ready, turns, n, Said(l, s, ready, turns, n))
    ensures Sent(l, s, ready, turns, n) == ([], s.bufferBps)
  {
    hide PlanPaidGas, GasFor, AskQuote, ConfirmedBy, Refusal, Contacted;
    if n > 0 {
      PassingTurnsGoOn(l, s, ready, turns, n - 1);
      assert Turns(l, s, ready, turns, n - 1) && Passes(l, s, ready, turns, n - 1);
    }
  }

  /** A submitted purchase that settles while the client waits is reported: after any turns without a quote, once a
      round of reads covers the settlement. */
  lemma PurchaseIsReported(l: Ledger, s: Settings, start: Start, turns: nat -> Turn, evidenceMs: nat, polls: seq<Poll>,
                           n: nat, k: nat, b: nat, i: nat)
    requires Lawful(l) && Clear(l, s, start) && PassingTurns(l, s, ReadyAt(l, start), turns, n)
    requires Turns(l, s, ReadyAt(l, start), turns, n)
    requires SentIn(l, s, ReadyAt(l, start), s.bufferBps, turns(n)).Some? && !PlainlyRefused(turns(n).submit)
    requires var (ready, q) := (ReadyAt(l, start), SentIn(l, s, ReadyAt(l, start), s.bufferBps, turns(n)).value);
      && SettlesAt(l, q, b, i) && k < |turns(n).polls| && Covers(turns(n).polls[k], start.block, b)
      && forall j :: 0 <= j < k ==> SeesNothing(l, q, AwaitUntil(s, ready, q, turns(n)), turns(n).polls[j])
    ensures var r := RunOf(l, s, start, turns, evidenceMs, polls);
      r.Some? && Reports(r.value, l.settlements(b)[i].log, l.settlements(b)[i].quote.maximumGas)
  {
    hide Lawful, Consumed, PlanPaidGas, GasFor, AskQuote, Refusal, AwaitOf, EvidenceOf, Resumed, AwaitUntil, Contacted, Said;
    hide SeesNothing;
    var ready := ReadyAt(l, start);
    var q := SentIn(l, s, ready, s.bufferBps, turns(n)).value;
    GoesOnExactly(l, s, start);
    PassingTurnsGoOn(l, s, ready, turns, n);
    SentIsBought(l, s, ready, s.bufferBps, turns(n));
    AwaitReports(l, s, q, ready.block, AwaitUntil(s, ready, q, turns(n)), turns(n).polls, k, b, i);
  }

  lemma SentIsBought(l: Ledger, s: Settings, ready: Ready, bufferBps: nat, turn: Turn)
    requires SentIn(l, s, ready, bufferBps, turn).Some?
    ensures var q := SentIn(l, s, ready, bufferBps, turn).value;
      Buys(s, q) && q.feeAsset == s.feeAsset
  {
    hide PlanPaidGas, Refusal, QuoteIsBounded, RequestIsValid, NowUnix, CeilDiv, Times;
    var plan := PlanPaidGas(GasFor(s, ready, bufferBps)).value;
    var asked := AskQuote(l, s, ready, plan, turn);
    assert Refusal(l, s, ready, plan, bufferBps, asked.quote, turn).None?;
  }

  /** When no turn brings a quote and the loop cannot go on, the call ends as not paid, with what the last exit
      said. */
  lemma NoQuoteIsNotPaid(l: Ledger, s: Settings, start: Start, turns: nat -> Turn, evidenceMs: nat, polls: seq<Poll>,
                         n: nat)
    requires Clear(l, s, start) && PassingTurns(l, s, ReadyAt(l, start), turns, n)
    requires Contacted(l, s, ReadyAt(l, start), turns, n) >= s.maxExits || turns(n).exit.None?
    requires PlanPaidGas(GasFor(s, ReadyAt(l, start), s.bufferBps)).Some?
    ensures RunOf(l, s, start, turns, evidenceMs, polls) == Some(Said(l, s, ReadyAt(l, start), turns, n))
  {
    hide PlanPaidGas, GasFor, AskQuote, Refusal, EvidenceOf, Resumed, Contacted, TurnOf, Said;
    var ready := ReadyAt(l, start);
    GoesOnExactly(l, s, start);
    PassingTurnsGoOn(l, s, ready, turns, n);
    assert LatestOf([]) == None;
  }

  /** The loop submits in turn n, sees that purchase expire, and has no exit left. */
  lemma ExpiresInLoop(l: Ledger, s: Settings, ready: Ready, turns: nat -> Turn, n: nat)
    requires PassingTurns(l, s, ready, turns, n) && Turns(l, s, ready, turns, n)
    requires SentIn(l, s, ready, s.bufferBps, turns(n)).Some? && !PlainlyRefused(turns(n).submit)
    requires Contacted(l, s, ready, turns, n + 1) >= s.maxExits
    requires var q := SentIn(l, s, ready, s.bufferBps, turns(n)).value;
      AwaitOf(l, s, q, ready.block, AwaitUntil(s, ready, q, turns(n)), turns(n).polls) == Expired
    ensures AttemptOf(l, s, ready, turns, 0, NO_EXIT) == (Some(NotPaid(Expiry, "QUOTE_EXPIRED_UNSETTLED")), n + 1)
    ensures Sent(l, s, ready, turns, n + 1).0 == [SentIn(l, s, ready, s.bufferBps, turns(n)).value]
  {
    hide PlanPaidGas, GasFor, AskQuote, Refusal, AwaitOf, AwaitUntil, Contacted, Said;
    PassingTurnsGoOn(l, s, ready, turns, n);
    var q := SentIn(l, s, ready, s.bufferBps, turns(n)).value;
    assert [] + [q] == [q];
    assert TurnOf(l, s, ready, s.bufferBps, turns(n)) == GoesOn(LastOf(turns(n).submit));
  }

  /** A purchase that expires unsettled, with no exit left: not paid, once the chain shows the payment unconsumed past
      the deadline. */
  lemma ExpiredIsNotPaid(l: Ledger, s: Settings, start: Start, turns: nat -> Turn, evidenceMs: nat, polls: seq<Poll>,
                         n: nat, k: nat)
    requires Clear(l, s, start) && PassingTurns(l, s, ReadyAt(l, start), turns, n)
    requires Turns(l, s, ReadyAt(l, start), turns, n)
    requires SentIn(l, s, ReadyAt(l, start), s.bufferBps, turns(n)).Some? && !PlainlyRefused(turns(n).submit)
    requires Contacted(l, s, ReadyAt(l, start), turns, n + 1) >= s.maxExits
    requires var (ready, q) := (ReadyAt(l, start), SentIn(l, s, ReadyAt(l, start), s.bufferBps, turns(n)).value);
      && AwaitOf(l, s, q, start.block, AwaitUntil(s, ready, q, turns(n)), turns(n).polls) == Expired
      && k < |polls| && !polls[k].fails && l.time(polls[k].block) > q.validUntil
      && !Consumed(l, ByPayment(s.paymentId), polls[k].block + polls[k].lag)
      && forall j :: 0 <= j < k ==> Waits(l, s, q.validUntil, evidenceMs + Patience(s), polls[j])
    ensures RunOf(l, s, start, turns, evidenceMs, polls) == Some(NotPaid(Expiry, "QUOTE_EXPIRED_UNSETTLED"))
  {
    hide Consumed, SentIn, Sent, AwaitOf, EvidenceOf, EvidenceIn, Resumed, AwaitUntil, Contacted, Waits, AttemptOf, Turns;
    hide PassingTurns, CheckedOf;
    var ready := ReadyAt(l, start);
    var q := SentIn(l, s, ready, s.bufferBps, turns(n)).value;
    ClearProceeds(l, s, start);
    ExpiresInLoop(l, s, ready, turns, n);
    assert LatestOf([q]) == Some(q) by { assert [q][..0] == []; assert LatestOf([]) == None; }
    var pending := Pending(l.hash(q), q.validUntil);
    ExpiryDecides(l, s, pending, true, polls[k]);
    EvidenceDecides(l, s, pending, evidenceMs + Patience(s), s.timeoutMs.Some?, polls, k);
  }

  lemma ClearProceeds(l: Ledger, s: Settings, start: Start)
    requires Clear(l, s, start)
    ensures CheckedOf(l, s, start) == Proceed(ReadyAt(l, start))
  {
    hide Consumed, Resumed;
  }

  /** After GasCapExceeded the next request is planned with 1,000 basis points more. */
  lemma BufferGrows(l: Ledger, s: Settings, ready: Ready, turns: nat -> Turn, n: nat)
    requires SentIn(l, s, ready, BufferAt(l, s, ready, turns, n), turns(n)).Some?
    ensures BufferAt(l, s, ready, turns, n + 1) == BufferAt(l, s, ready, turns, n)
      + if turns(n).submit.GasCapExceeded? then 1_000 else 0
  {
    hide SentIn;
  }
}
