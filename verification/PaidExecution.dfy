/** executePaid: one action, one payment id, several exits that may do anything with what they are given.
    Every answer from outside is an argument, so a contract holds for every behaviour of exits, readers and
    clocks; a poll script that runs out before the loop ends gives Running. */
module PaidExecution {
  import opened Outcomes
  import opened PaidQuotes
  import opened PaidLedger

  const BUFFER_STEP_BPS: nat := 1_000
  const REQUEST_TTL: nat := 120
  const GRACE_MS: nat := 60_000

  datatype Pending = Pending(executionId: Id, validUntil: nat)

  datatype Settings = Settings(
    chainId: nat, entryPoint: Id, intentId: Id, adapter: Id, paymentId: Id, feeAsset: Id, target: Id,
    calldataHash: Id, assetsHash: Id, returnLimit: nat, maxTotalFee: nat, paymentGas: nat,
    paymentDataLength: nat, calldataGas: nat, bufferBps: nat, headroomBps: nat, dataFeeBps: nat,
    clamp: Option<int>, minHeadroom: nat, maxExits: nat, dryRun: bool, timeoutMs: Option<nat>, lookback: nat,
    pending: Option<Pending>)

  datatype Stage = Precheck | QuoteStage | FeeCap | Payment | Preflight | Submit | Expiry

  datatype PaidResult =
    | Settled(log: Log, maximumGas: nat)
    | ActionFailed(log: Log)
    | DryRun(executionId: Id, estimate: nat)
    | NotPaid(stage: Stage, code: string)
    | Unknown(execution: Option<Id>, validUntil: Option<nat>)

  /* ----- what results mean on the chain ----- */

  predicate SameAction(s: Settings, q: Quote) {
    q.intentId == s.intentId && q.calldataHash == s.calldataHash && q.target == s.target
  }

  /** The quote buys this action with this payment, within the cap. */
  predicate Buys(s: Settings, q: Quote) {
    q.paymentId == s.paymentId && SameAction(s, q) && q.Total() <= s.maxTotalFee
  }

  ghost predicate SettledFor(l: Ledger, s: Settings, log: Log, b: nat, i: nat) {
    && HitAt(l, ByPayment(s.paymentId), b, i)
    && l.settlements(b)[i].log == log && SameAction(s, l.settlements(b)[i].quote)
  }

  /** A reported settlement is on the chain, took this payment and executed this action. */
  ghost predicate Truthful(l: Ledger, s: Settings, r: PaidResult) {
    match r
    case Settled(log, gas) =>
      log.success && exists b: nat, i: nat :: SettledFor(l, s, log, b, i) && l.settlements(b)[i].quote.maximumGas == gas
    case ActionFailed(log) => !log.success && exists b: nat, i: nat :: SettledFor(l, s, log, b, i)
    case _ => true
  }

  /** The payment id was consumed by another action. */
  ghost predicate SpentElsewhere(l: Ledger, s: Settings) {
    exists b: nat, i: nat :: HitAt(l, ByPayment(s.paymentId), b, i) && !SameAction(s, l.settlements(b)[i].quote)
  }

  /** The payment id was still unconsumed at a block past the deadline. */
  ghost predicate UnspentAfter(l: Ledger, s: Settings, deadline: nat) {
    exists b: nat :: l.time(b) > deadline && !Consumed(l, ByPayment(s.paymentId), b)
  }

  lemma UnspentIsFinal(l: Ledger, s: Settings, deadline: nat, q: Quote)
    requires Lawful(l) && UnspentAfter(l, s, deadline)
    requires q.paymentId == s.paymentId && q.validUntil <= deadline
    ensures NeverSettles(l, q)
  {
    hide Lawful, NeverSettles, Consumed;
    var b: nat :| l.time(b) > deadline && !Consumed(l, ByPayment(s.paymentId), b);
    TooLate(l, q, ByPayment(q.paymentId), b);
  }

  lemma SpentElsewhereIsFinal(l: Ledger, s: Settings, q: Quote)
    requires Lawful(l) && SpentElsewhere(l, s)
    requires q.paymentId == s.paymentId && SameAction(s, q)
    ensures NeverSettles(l, q)
  {
    hide Lawful, NeverSettles;
    var b: nat, i: nat :| HitAt(l, ByPayment(s.paymentId), b, i) && !SameAction(s, l.settlements(b)[i].quote);
    TakenByAnother(l, q, ByPayment(s.paymentId), b, i);
  }

  /** An event found by payment id whose transaction carries the hashed quote was caused by that quote. */
  lemma InputIsTheQuote(l: Ledger, query: Query, first: int, last: int, log: Log, q: Quote)
    requires Lawful(l) && IsEvent(l, query, first, last, log) && l.hash(q) == log.executionId
    ensures exists b: nat, i: nat :: HitAt(l, query, b, i) && l.settlements(b)[i].log == log && l.settlements(b)[i].quote == q
  {
    var b: nat, i: nat :| first <= b <= last && HitAt(l, query, b, i) && l.settlements(b)[i].log == log;
    assert SettlesLawfully(l, l.settlements(b)[i], b);
  }

  /* ----- resuming ----- */

  /** Which log queries fail, and whether reading the transaction does. */
  datatype Answers = Answers(fails: int -> bool, inputFails: bool)

  function SettledResult(log: Log, maximumGas: nat): PaidResult {
    if log.success then Settled(log, maximumGas) else ActionFailed(log)
  }

  lemma ResumeIsTruthful(l: Ledger, s: Settings, first: int, last: int, log: Log, q: Quote)
    requires Lawful(l) && IsEvent(l, ByPayment(s.paymentId), first, last, log) && l.hash(q) == log.executionId
    ensures SameAction(s, q) ==> Truthful(l, s, SettledResult(log, q.maximumGas))
    ensures !SameAction(s, q) ==> SpentElsewhere(l, s)
  {
    hide Lawful, IsEvent;
    InputIsTheQuote(l, ByPayment(s.paymentId), first, last, log, q);
    var b: nat, i: nat :| HitAt(l, ByPayment(s.paymentId), b, i) && l.settlements(b)[i].log == log
                && l.settlements(b)[i].quote == q;
    assert SameAction(s, q) ==> SettledFor(l, s, log, b, i);
  }

  /** What resume answers; None where it throws. */
  ghost function Resumed(l: Ledger, s: Settings, block: nat, answers: Answers): Option<PaidResult> {
    var first := if block > s.lookback then block - s.lookback else 0;
    match FoundIn(l, ByPayment(s.paymentId), first, block, answers.fails)
    case None => None
    case Some(None) => Some(Unknown(None, None))
    case Some(Some(log)) =>
      if answers.inputFails then None
      else
        match l.input(log.transaction)
        case None => Some(Unknown(Some(log.executionId), None))
        case Some(q) =>
          if l.hash(q) != log.executionId then Some(Unknown(Some(log.executionId), None))
          else if !SameAction(s, q) then Some(NotPaid(Precheck, "PAYMENT_CONSUMED"))
          else Some(SettledResult(log, q.maximumGas))
  }

  /** resume. */
  method Resume(l: Ledger, s: Settings, block: nat, answers: Answers) returns (r: Option<PaidResult>)
    requires Lawful(l)
    ensures r == Resumed(l, s, block, answers)
    ensures r.Some? ==> Truthful(l, s, r.value) && !r.value.DryRun?
    ensures r.Some? && r.value.NotPaid? ==> SpentElsewhere(l, s)
  {
    hide Lawful, IsEvent, SettledFor, HitAt, BlockHits, SpentElsewhere;
    var first := if block > s.lookback then block - s.lookback else 0;
    FoundIsExact(l, ByPayment(s.paymentId), first, block, answers.fails);
    var found, _ := FindSettlement(l, ByPayment(s.paymentId), first, block, answers.fails);
    if found.None? { return None; }
    if found.value.None? { return Some(Unknown(None, None)); }
    if answers.inputFails { return None; }
    var log := found.value.value;
    var input := l.input(log.transaction);
    if input.None? || l.hash(input.value) != log.executionId { return Some(Unknown(Some(log.executionId), None)); }
    ResumeIsTruthful(l, s, first, block, log, input.value);
    if !SameAction(s, input.value) { return Some(NotPaid(Precheck, "PAYMENT_CONSUMED")); }
    return Some(SettledResult(log, input.value.maximumGas));
  }

  /* ----- polling ----- */

  /** One round of reads: the block number returned, how many blocks later the flag was read, and the
      clock at the end of the round. */
  datatype Poll = Poll(fails: bool, block: nat, lag: nat, answers: Answers, nowMs: nat)

  datatype Evidence = Unconsumed | Expired | Final(result: PaidResult) | Running

  ghost predicate Supports(l: Ledger, s: Settings, deadline: nat, e: Evidence) {
    && (e.Expired? ==> UnspentAfter(l, s, deadline))
    && (e.Final? ==> Truthful(l, s, e.result) && !e.result.DryRun?)
    && (e.Final? && e.result.NotPaid? ==> SpentElsewhere(l, s))
  }

  /** A flag read late is still evidence: it was unset at a block no earlier than the one timed. */
  lemma LateFlag(l: Ledger, s: Settings, block: nat, lag: nat, deadline: nat)
    requires Lawful(l) && l.time(block) > deadline && !Consumed(l, ByPayment(s.paymentId), block + lag)
    ensures UnspentAfter(l, s, deadline)
  {
    hide Consumed;
    assert l.time(block + lag) >= l.time(block);
  }

  /** What a round of paymentEvidence decides, None where the loop goes on. */
  ghost function EvidenceIn(l: Ledger, s: Settings, q: Pending, wait: bool, poll: Poll): Option<Evidence> {
    var unknown := Some(Final(Unknown(Some(q.executionId), Some(q.validUntil))));
    if poll.fails then if wait then None else unknown
    else if Consumed(l, ByPayment(s.paymentId), poll.block + poll.lag) then
      match Resumed(l, s, poll.block, poll.answers)
      case Some(result) => Some(Final(result))
      case None => if wait then None else unknown
    else if l.time(poll.block) > q.validUntil then Some(Expired)
    else if wait then None else Some(Unconsumed)
  }

  /** A round in which the payment id is readable and unconsumed extends the wait, once, to the quote's deadline. */
  function Extends(l: Ledger, s: Settings, poll: Poll): bool {
    !poll.fails && !Consumed(l, ByPayment(s.paymentId), poll.block + poll.lag)
  }

  /** paymentEvidence over all its rounds. */
  ghost function EvidenceOf(l: Ledger, s: Settings, q: Pending, wait: bool, deadlineMs: int, extended: bool, polls: seq<Poll>): Evidence
    decreases |polls|
  {
    if polls == [] then Running
    else
      match EvidenceIn(l, s, q, wait, polls[0])
      case Some(e) => e
      case None =>
        var longer := !extended && Extends(l, s, polls[0]);
        var later := if longer then deadlineMs + (q.validUntil - l.time(polls[0].block)) * 1000 else deadlineMs;
        if polls[0].nowMs >= later then Final(Unknown(Some(q.executionId), Some(q.validUntil)))
        else EvidenceOf(l, s, q, wait, later, extended || longer, polls[1..])
  }

  /** How long the loop waits before any round extended it. */
  function Patience(s: Settings): nat { if s.timeoutMs.Some? then s.timeoutMs.value else GRACE_MS }

  /** paymentEvidence. */
  method PaymentEvidence(l: Ledger, s: Settings, q: Pending, wait: bool, startMs: nat, polls: seq<Poll>)
    returns (e: Evidence)
    requires Lawful(l)
    ensures e == EvidenceOf(l, s, q, wait, startMs + Patience(s), s.timeoutMs.Some?, polls)
    ensures Supports(l, s, q.validUntil, e)
    ensures wait ==> !e.Unconsumed?
  {
    hide Lawful, Consumed, UnspentAfter, Truthful, SpentElsewhere, Resumed;
    var deadlineMs: int := startMs + Patience(s);
    var extended := s.timeoutMs.Some?;
    assert polls[0..] == polls;
    for k := 0 to |polls|
      invariant EvidenceOf(l, s, q, wait, startMs + Patience(s), s.timeoutMs.Some?, polls)
             == EvidenceOf(l, s, q, wait, deadlineMs, extended, polls[k..])
    {
      var poll := polls[k];
      assert polls[k..][0] == poll && polls[k..][1..] == polls[k + 1..];
      var failed := poll.fails;
      if !failed {
        if Consumed(l, ByPayment(s.paymentId), poll.block + poll.lag) {
          var resumed := Resume(l, s, poll.block, poll.answers);
          if resumed.Some? { return Final(resumed.value); }
          failed := true;
        } else if l.time(poll.block) > q.validUntil {
          LateFlag(l, s, poll.block, poll.lag, q.validUntil);
          return Expired;
        } else if !wait {
          return Unconsumed;
        } else if !extended {
          deadlineMs := deadlineMs + (q.validUntil - l.time(poll.block)) * 1000;
          extended := true;
        }
      }
      if failed && !wait { return Final(TruthfulUnknown(l, s, q)); }
      if poll.nowMs >= deadlineMs { return Final(TruthfulUnknown(l, s, q)); }
    }
    return Running;
  }

  function TruthfulUnknown(l: Ledger, s: Settings, q: Pending): (r: PaidResult)
    ensures r == Unknown(Some(q.executionId), Some(q.validUntil)) && Truthful(l, s, r)
  {
    Unknown(Some(q.executionId), Some(q.validUntil))
  }

  /** settlementMismatch. */
  predicate SettlementMatches(log: Log, s: Settings, q: Quote, executionId: Id) {
    && log.executionId == executionId && log.paymentId == s.paymentId && log.exit == q.exit
    && log.feeAsset == s.feeAsset && log.target == s.target
    && log.exitFee == q.exitFee && log.networkFee == q.networkFee
  }

  /** The event of a quote that matches the request never mismatches. */
  lemma EventMatches(l: Ledger, s: Settings, q: Quote, first: int, last: int, log: Log)
    requires Lawful(l) && IsEvent(l, ByExecution(l.hash(q)), first, last, log)
    requires Buys(s, q) && q.feeAsset == s.feeAsset
    ensures SettlementMatches(log, s, q, l.hash(q)) && Truthful(l, s, SettledResult(log, q.maximumGas))
  {
    var b: nat, i: nat :| first <= b <= last && HitAt(l, ByExecution(l.hash(q)), b, i) && l.settlements(b)[i].log == log;
    assert SettlesLawfully(l, l.settlements(b)[i], b);
    assert l.settlements(b)[i].quote == q;
    assert SettledFor(l, s, log, b, i);
  }

  lemma ExpiredIsFinal(l: Ledger, q: Quote, block: nat, lag: nat)
    requires Lawful(l) && l.time(block) > q.validUntil && !Consumed(l, ByExecution(l.hash(q)), block + lag)
    ensures NeverSettles(l, q)
  {
    hide Consumed, NeverSettles;
    assert l.time(block + lag) >= l.time(block);
    TooLate(l, q, ByExecution(l.hash(q)), block + lag);
  }

  /** What a round of awaitSettlement decides, None where the loop goes on. */
  ghost function AwaitIn(l: Ledger, s: Settings, q: Quote, fromBlock: nat, poll: Poll): Option<Evidence> {
    var id := l.hash(q);
    if poll.fails then None
    else if Consumed(l, ByExecution(id), poll.block + poll.lag) then
      match FoundIn(l, ByExecution(id), fromBlock, poll.block, poll.answers.fails)
      case Some(Some(log)) =>
        if SettlementMatches(log, s, q, id) then Some(Final(SettledResult(log, q.maximumGas)))
        else Some(Final(Unknown(Some(id), Some(q.validUntil))))
      case _ => None
    else if l.time(poll.block) > q.validUntil then Some(Expired) else None
  }

  /** awaitSettlement over all its rounds. */
  ghost function AwaitOf(l: Ledger, s: Settings, q: Quote, fromBlock: nat, deadlineMs: int, polls: seq<Poll>): Evidence
    decreases |polls|
  {
    if polls == [] then Running
    else
      match AwaitIn(l, s, q, fromBlock, polls[0])
      case Some(e) => e
      case None =>
        if polls[0].nowMs >= deadlineMs then Final(Unknown(Some(l.hash(q)), Some(q.validUntil)))
        else AwaitOf(l, s, q, fromBlock, deadlineMs, polls[1..])
  }

  /** awaitSettlement, its found settlement already turned into a result: a reported settlement is real, a
      quote it calls expired never settles. */
  method AwaitSettlement(l: Ledger, s: Settings, q: Quote, fromBlock: nat, deadlineMs: int, polls: seq<Poll>)
    returns (e: Evidence)
    requires Lawful(l) && Buys(s, q) && q.feeAsset == s.feeAsset
    ensures e == AwaitOf(l, s, q, fromBlock, deadlineMs, polls)
    ensures e.Expired? ==> NeverSettles(l, q)
    ensures e.Final? ==> !e.result.NotPaid? && !e.result.DryRun? && Truthful(l, s, e.result)
    ensures !e.Unconsumed?
  {
    hide Lawful, Consumed, Truthful, Buys, IsEvent, NeverSettles, BlockHits, SettlementMatches, FoundIn;
    var id := l.hash(q);
    assert polls[0..] == polls;
    for k := 0 to |polls|
      invariant AwaitOf(l, s, q, fromBlock, deadlineMs, polls) == AwaitOf(l, s, q, fromBlock, deadlineMs, polls[k..])
    {
      var poll := polls[k];
      assert polls[k..][0] == poll && polls[k..][1..] == polls[k + 1..];
      if !poll.fails {
        if Consumed(l, ByExecution(id), poll.block + poll.lag) {
          FoundIsExact(l, ByExecution(id), fromBlock, poll.block, poll.answers.fails);
          var found, _ := FindSettlement(l, ByExecution(id), fromBlock, poll.block, poll.answers.fails);
          if found.Some? && found.value.Some? {
            var log := found.value.value;
            if !SettlementMatches(log, s, q, id) {
              return Final(TruthfulUnknown(l, s, Pending(id, q.validUntil)));
            }
            EventMatches(l, s, q, fromBlock, poll.block, log);
            return Final(SettledResult(log, q.maximumGas));
          }
        } else if l.time(poll.block) > q.validUntil {
          ExpiredIsFinal(l, q, poll.block, poll.lag);
          return Expired;
        }
      }
      if poll.nowMs >= deadlineMs { return Final(TruthfulUnknown(l, s, Pending(id, q.validUntil))); }
    }
    return Running;
  }

  /* ----- one attempt ----- */

  /** What the outside answers before the first quote. */
  datatype Start = Start(
    actionAllowed: bool, fails: bool, block: nat, paymentLag: nat, intentLag: nat, answers: Answers,
    laterFails: bool, actionGas: nat, dataFeeGas: nat, nowMs: nat)

  datatype Ready = Ready(block: nat, time: nat, actionGas: nat, dataFeeGas: nat, nowMs: nat)

  function ReadyAt(l: Ledger, start: Start): Ready {
    Ready(start.block, l.time(start.block), start.actionGas, start.dataFeeGas, start.nowMs)
  }

  datatype Prechecked = Stopped(result: PaidResult) | Proceed(ready: Ready)

  /** Nothing bought by this payment has settled yet, and nothing pending can settle any more. */
  ghost predicate Untouched(l: Ledger, s: Settings, ready: Ready) {
    && ready.time == l.time(ready.block)
    && !Consumed(l, ByPayment(s.paymentId), ready.block)
    && !Consumed(l, ByIntent(s.intentId), ready.block)
    && (s.pending.Some? ==> UnspentAfter(l, s, s.pending.value.validUntil))
  }

  lemma UnsetEarlier(l: Ledger, query: Query, block: nat, lag: nat)
    requires !Consumed(l, query, block + lag)
    ensures !Consumed(l, query, block)
  {
    hide BlockHits;
  }

  /** No quote for this action and payment can ever settle. */
  ghost predicate NothingCanSettle(l: Ledger, s: Settings) {
    forall q: Quote :: q.paymentId == s.paymentId && SameAction(s, q) ==> NeverSettles(l, q)
  }

  lemma SpentElsewhereStopsAll(l: Ledger, s: Settings)
    requires Lawful(l) && SpentElsewhere(l, s)
    ensures NothingCanSettle(l, s)
  {
    hide Lawful, SpentElsewhere, NeverSettles, SameAction;
    forall q: Quote | q.paymentId == s.paymentId && SameAction(s, q) ensures NeverSettles(l, q) {
      SpentElsewhereIsFinal(l, s, q);
    }
  }

  /** Two flags that disagree settle the matter when the set one was not read later than the unset one. */
  lemma DisagreeingFlags(l: Ledger, s: Settings, unset: Query, unsetAt: nat, taken: Query, takenAt: nat)
    requires Lawful(l) && {unset, taken} <= {ByPayment(s.paymentId), ByIntent(s.intentId)}
    requires !Consumed(l, unset, unsetAt) && Consumed(l, taken, takenAt) && takenAt <= unsetAt
    ensures NothingCanSettle(l, s)
  {
    hide Lawful, NeverSettles, Consumed;
    forall q: Quote | q.paymentId == s.paymentId && SameAction(s, q) ensures NeverSettles(l, q) {
      FlagsDecide(l, q, unset, unsetAt, taken, takenAt);
    }
  }

  /** The verdict on a payment and an intent flag that disagree. */
  function FlagVerdict(l: Ledger, s: Settings, start: Start): Option<PaidResult> {
    var paymentConsumed := Consumed(l, ByPayment(s.paymentId), start.block + start.paymentLag);
    var intentConsumed := Consumed(l, ByIntent(s.intentId), start.block + start.intentLag);
    if intentConsumed && !paymentConsumed then Some(NotPaid(Precheck, "INTENT_CONSUMED"))
    else if paymentConsumed && !intentConsumed then Some(NotPaid(Precheck, "PAYMENT_CONSUMED"))
    else None
  }

  /** What step 1 decides. */
  ghost function CheckedOf(l: Ledger, s: Settings, start: Start): Prechecked {
    var paymentConsumed := Consumed(l, ByPayment(s.paymentId), start.block + start.paymentLag);
    var intentConsumed := Consumed(l, ByIntent(s.intentId), start.block + start.intentLag);
    if !start.actionAllowed then Stopped(NotPaid(Precheck, "ACTION_REFUSED"))
    else if start.fails then Stopped(NotPaid(Precheck, "CHAIN_READ_FAILED"))
    else if intentConsumed && paymentConsumed then
      match Resumed(l, s, start.block, start.answers)
      case None => Stopped(Unknown(None, None))
      case Some(result) => Stopped(result)
    else if FlagVerdict(l, s, start).Some? then Stopped(FlagVerdict(l, s, start).value)
    else if s.pending.Some? && l.time(start.block) <= s.pending.value.validUntil then
      Stopped(Unknown(Some(s.pending.value.executionId), Some(s.pending.value.validUntil)))
    else if start.laterFails then Stopped(NotPaid(Precheck, "CHAIN_READ_FAILED"))
    else Proceed(ReadyAt(l, start))
  }

  /** Step 1 of attemptPaid. Its consumed verdicts are final when the flag that was set was not read at a
      later block than the one that was not. */
  method CheckState(l: Ledger, s: Settings, start: Start) returns (r: Prechecked)
    requires Lawful(l)
    ensures r == CheckedOf(l, s, start)
    ensures r.Proceed? ==> Untouched(l, s, r.ready) && r.ready == ReadyAt(l, start)
    ensures r.Stopped? ==> Truthful(l, s, r.result) && !r.result.DryRun?
    ensures r == Stopped(NotPaid(Precheck, "INTENT_CONSUMED")) && start.intentLag <= start.paymentLag
            ==> NothingCanSettle(l, s)
    ensures r == Stopped(NotPaid(Precheck, "PAYMENT_CONSUMED")) && start.paymentLag <= start.intentLag
            ==> NothingCanSettle(l, s)
  {
    hide Lawful, Consumed, UnspentAfter, SpentElsewhere, SettledFor, NothingCanSettle, Resumed;
    if !start.actionAllowed { return Stopped(NotPaid(Precheck, "ACTION_REFUSED")); }
    if start.fails { return Stopped(NotPaid(Precheck, "CHAIN_READ_FAILED")); }
    var paymentConsumed := Consumed(l, ByPayment(s.paymentId), start.block + start.paymentLag);
    var intentConsumed := Consumed(l, ByIntent(s.intentId), start.block + start.intentLag);
    if intentConsumed && paymentConsumed {
      var resumed := Resume(l, s, start.block, start.answers);
      if resumed.None? { return Stopped(Unknown(None, None)); }
      if resumed.value.NotPaid? { SpentElsewhereStopsAll(l, s); }
      return Stopped(resumed.value);
    }
    if intentConsumed {
      if start.intentLag <= start.paymentLag {
        DisagreeingFlags(l, s, ByPayment(s.paymentId), start.block + start.paymentLag,
                         ByIntent(s.intentId), start.block + start.intentLag);
      }
      return Stopped(NotPaid(Precheck, "INTENT_CONSUMED"));
    }
    if paymentConsumed {
      if start.paymentLag <= start.intentLag {
        DisagreeingFlags(l, s, ByIntent(s.intentId), start.block + start.intentLag,
                         ByPayment(s.paymentId), start.block + start.paymentLag);
      }
      return Stopped(NotPaid(Precheck, "PAYMENT_CONSUMED"));
    }
    var time := l.time(start.block);
    if s.pending.Some? && time <= s.pending.value.validUntil {
      return Stopped(Unknown(Some(s.pending.value.executionId), Some(s.pending.value.validUntil)));
    }
    if start.laterFails { return Stopped(NotPaid(Precheck, "CHAIN_READ_FAILED")); }
    UnsetEarlier(l, ByPayment(s.paymentId), start.block, start.paymentLag);
    UnsetEarlier(l, ByIntent(s.intentId), start.block, start.intentLag);
    if s.pending.Some? { LateFlag(l, s, start.block, start.paymentLag, s.pending.value.validUntil); }
    return Proceed(ReadyAt(l, start));
  }

  /** nowUnix: chain time plus the time since it was read, or the local clock when that is later. */
  function NowUnix(ready: Ready, nowMs: nat): nat {
    Max(ready.time + Max(0, (nowMs - ready.nowMs) / 1000), nowMs / 1000)
  }

  /** Replies to a quote request. resent: the client has asked a second exit, which need not be the one that
      answers. */
  datatype QuoteReply =
    | Rejected(code: string, resent: bool)
    | TimedOut(resent: bool)
    | Undecryptable(resent: bool)
    | Failed(code: string, resent: bool)
    | Replied(signed: SignedQuote, resent: bool)

  datatype SubmitReply = RefusedLocally | NoAnswer | Accepted | SubmissionFailure | DuplicateExecution | GasCapExceeded
                       | OtherRejection(code: string)

  /** What the outside answers in one turn of the loop, with the clock readings in between. */
  datatype Turn = Turn(
    exit: Option<Id>, chainTime: nat, requestMs: nat, reply: QuoteReply, activeMs: nat, latestTime: Option<nat>,
    headroomMs: nat, paymentData: Option<nat>, simulation: Option<(nat, bool)>, submitMs: nat,
    submit: SubmitReply, confirmMs: nat, polls: seq<Poll>)

  function GasFor(s: Settings, ready: Ready, bufferBps: nat): GasInput {
    GasInput(s.paymentGas, ready.actionGas, s.calldataGas, ready.dataFeeGas, bufferBps, s.headroomBps,
             s.dataFeeBps, s.clamp)
  }

  function RequestFor(s: Settings, ready: Ready, plan: GasPlan, turn: Turn): Request {
    Request(s.chainId, s.entryPoint, s.intentId, s.adapter, s.paymentId, s.feeAsset, s.paymentGas, s.target,
            s.calldataHash, ready.actionGas, s.assetsHash, plan.maximumGas, s.returnLimit,
            NowUnix(ready, turn.requestMs) + REQUEST_TTL)
  }

  datatype Quoted = Stop(result: PaidResult) | Again(last: PaidResult, charge: nat) | Quoted(quote: Quote, charge: nat)

  /** Step 2 of attemptPaid after an exit was selected. */
  function AskQuote(l: Ledger, s: Settings, ready: Ready, plan: GasPlan, turn: Turn): (r: Quoted)
    requires turn.exit.Some?
    ensures r.Stop? ==> r.result.NotPaid?
    ensures r.Again? ==> r.last.NotPaid?
    ensures !r.Stop? ==> 1 <= r.charge <= 2
    ensures r.Quoted? ==> QuoteMatches(r.quote, RequestFor(s, ready, plan, turn)) && QuoteIsBounded(r.quote)
  {
    var request := RequestFor(s, ready, plan, turn);
    if !RequestIsValid(request, turn.chainTime) then Stop(NotPaid(QuoteStage, "InvalidConfig"))
    else
      match turn.reply
      case Rejected(code, _) => Again(NotPaid(QuoteStage, code), 1)
      case TimedOut(_) => Again(NotPaid(QuoteStage, "ResponseTimeout"), 2)
      case Undecryptable(_) => Again(NotPaid(QuoteStage, "DecryptionFailed"), 1)
      case Failed(code, _) => Stop(NotPaid(QuoteStage, code))
      case Replied(signed, _) =>
        if !QuoteIsIssued(signed, request, l.hash) then Again(NotPaid(QuoteStage, "DecryptionFailed"), 1)
        else Quoted(signed.quote, if signed.from == turn.exit.value then 1 else 2)
  }

  /** Steps 2 to 4 after a quote was issued: None means that it is to be submitted. */
  function Refusal(l: Ledger, s: Settings, ready: Ready, plan: GasPlan, bufferBps: nat, q: Quote, turn: Turn)
    : (r: Option<PaidResult>)
    ensures r.Some? ==> r.value.NotPaid? || (r.value.DryRun? && s.dryRun)
    ensures r.None? ==>
      && q.Total() <= s.maxTotalFee && !s.dryRun
      && q.validUntil >= NowUnix(ready, turn.submitMs) + s.minHeadroom
      && turn.simulation.Some? && turn.simulation.value.1
      && CeilDiv(Times(turn.simulation.value.0, BPS + bufferBps), BPS) <= plan.maximumGas
  {
    if q.Total() > s.maxTotalFee then Some(NotPaid(FeeCap, "FEE_ABOVE_MAXIMUM"))
    else if q.validAfter > NowUnix(ready, turn.activeMs) && turn.latestTime.None? then
      Some(NotPaid(QuoteStage, "CHAIN_READ_FAILED"))
    else if q.validAfter > NowUnix(ready, turn.activeMs) && q.validAfter > turn.latestTime.value then
      Some(NotPaid(QuoteStage, "QUOTE_NOT_ACTIVE"))
    else if q.validUntil - NowUnix(ready, turn.headroomMs) < s.minHeadroom then
      Some(NotPaid(Expiry, "QUOTE_HEADROOM"))
    else if turn.paymentData.None? || turn.paymentData.value == 0 || turn.paymentData.value > s.paymentDataLength then
      Some(NotPaid(Payment, "PAYMENT_BUILD_FAILED"))
    else if turn.simulation.None? then Some(NotPaid(Preflight, "SIMULATION_FAILED"))
    else
      var (estimate, success) := turn.simulation.value;
      if !success then Some(NotPaid(Preflight, "ACTION_WOULD_FAIL"))
      else if CeilDiv(Times(estimate, BPS + bufferBps), BPS) > plan.maximumGas then
        Some(NotPaid(Preflight, "GAS_CAP_TOO_LOW"))
      else if s.dryRun then Some(DryRun(l.hash(q), estimate))
      else if q.validUntil - NowUnix(ready, turn.submitMs) < s.minHeadroom then
        Some(NotPaid(Expiry, "QUOTE_HEADROOM"))
      else None
  }

  /** The quote whose calldata leaves the client in a turn. */
  function SentIn(l: Ledger, s: Settings, ready: Ready, bufferBps: nat, turn: Turn): Option<Quote> {
    var plan := PlanPaidGas(GasFor(s, ready, bufferBps));
    if plan.None? || turn.exit.None? then None
    else
      var asked := AskQuote(l, s, ready, plan.value, turn);
      if asked.Quoted? && Refusal(l, s, ready, plan.value, bufferBps, asked.quote, turn).None?
         && !turn.submit.RefusedLocally?
      then Some(asked.quote) else None
  }

  /** All calldata that leaves in the first turns, and the gas buffer after them. */
  function Sent(l: Ledger, s: Settings, ready: Ready, turns: nat -> Turn, count: nat): (seq<Quote>, nat) {
    if count == 0 then ([], s.bufferBps)
    else
      var (before, bufferBps) := Sent(l, s, ready, turns, count - 1);
      match SentIn(l, s, ready, bufferBps, turns(count - 1))
      case None => (before, bufferBps)
      case Some(q) =>
        (before + [q], if turns(count - 1).submit.GasCapExceeded? then bufferBps + BUFFER_STEP_BPS else bufferBps)
  }

  /* ----- the exits a run reaches ----- */

  /** The gas buffer in a turn of the loop. */
  function BufferAt(l: Ledger, s: Settings, ready: Ready, turns: nat -> Turn, k: nat): nat {
    Sent(l, s, ready, turns, k).1
  }

  /** The loop can ask for a quote: there is a gas plan and an exit. */
  predicate Asks(s: Settings, ready: Ready, bufferBps: nat, turn: Turn) {
    PlanPaidGas(GasFor(s, ready, bufferBps)).Some? && turn.exit.Some?
  }

  /** The request is valid, so that it leaves the client. */
  predicate Sends(s: Settings, ready: Ready, bufferBps: nat, turn: Turn) {
    && Asks(s, ready, bufferBps, turn)
    && RequestIsValid(RequestFor(s, ready, PlanPaidGas(GasFor(s, ready, bufferBps)).value, turn), turn.chainTime)
  }

  /** The client asked a second exit: it was resent, or another exit than the requested one answers. */
  predicate SecondExit(turn: Turn) {
    turn.reply.resent || (turn.reply.Replied? && Some(turn.reply.signed.from) != turn.exit)
  }

  /** Exits that the request of a turn reached. */
  function ReachedIn(s: Settings, ready: Ready, bufferBps: nat, turn: Turn): nat {
    if !Sends(s, ready, bufferBps, turn) then 0 else if SecondExit(turn) then 2 else 1
  }

  /** What the loop adds to contacted in a turn. */
  function ChargedIn(l: Ledger, s: Settings, ready: Ready, bufferBps: nat, turn: Turn): nat {
    if !Asks(s, ready, bufferBps, turn) then 0
    else
      var asked := AskQuote(l, s, ready, PlanPaidGas(GasFor(s, ready, bufferBps)).value, turn);
      if asked.Stop? then 0 else asked.charge
  }

  function Contacted(l: Ledger, s: Settings, ready: Ready, turns: nat -> Turn, n: nat): nat {
    if n == 0 then 0
    else
      Contacted(l, s, ready, turns, n - 1)
      + ChargedIn(l, s, ready, BufferAt(l, s, ready, turns, n - 1), turns(n - 1))
  }

  /** Exits that the first n requests of a run reached. */
  function Reached(l: Ledger, s: Settings, ready: Ready, turns: nat -> Turn, n: nat): (r: nat)
    ensures r <= 2 * n
  {
    if n == 0 then 0
    else
      Reached(l, s, ready, turns, n - 1) + ReachedIn(s, ready, BufferAt(l, s, ready, turns, n - 1), turns(n - 1))
  }

  /** A turn that brings no quote and lets the loop go on. */
  predicate Passes(l: Ledger, s: Settings, ready: Ready, turns: nat -> Turn, k: nat) {
    var bufferBps := BufferAt(l, s, ready, turns, k);
    && Asks(s, ready, bufferBps, turns(k))
    && AskQuote(l, s, ready, PlanPaidGas(GasFor(s, ready, bufferBps)).value, turns(k)).Again?
  }

  /** The loop turns to the k-th exit: it has not used up its exits and can ask. */
  predicate Turns(l: Ledger, s: Settings, ready: Ready, turns: nat -> Turn, k: nat) {
    Contacted(l, s, ready, turns, k) < s.maxExits && Asks(s, ready, BufferAt(l, s, ready, turns, k), turns(k))
  }

  /** n requests are made for sure: nothing ends the loop before the last of them. */
  ghost predicate MadeForSure(l: Ledger, s: Settings, ready: Ready, turns: nat -> Turn, n: nat) {
    && (forall k :: 0 <= k < n ==> Turns(l, s, ready, turns, k))
    && (forall k :: 0 <= k < n - 1 ==> Passes(l, s, ready, turns, k))
  }

  /** What the loop says about the number of its requests: none after contacted has reached maxExits, and all
      that are made for sure. */
  ghost predicate LoopMakes(l: Ledger, s: Settings, ready: Ready, turns: nat -> Turn, requests: nat) {
    && (forall k :: 0 <= k < requests ==> Turns(l, s, ready, turns, k))
    && (forall n: nat :: MadeForSure(l, s, ready, turns, n) ==> n <= requests)
  }

  lemma EndsBefore(l: Ledger, s: Settings, ready: Ready, turns: nat -> Turn, requests: nat)
    requires forall k :: 0 <= k < requests ==> Turns(l, s, ready, turns, k)
    requires !Turns(l, s, ready, turns, requests)
    ensures LoopMakes(l, s, ready, turns, requests)
  {
    hide Turns, Passes;
  }

  lemma EndsIn(l: Ledger, s: Settings, ready: Ready, turns: nat -> Turn, last: nat)
    requires forall k :: 0 <= k <= last ==> Turns(l, s, ready, turns, k)
    requires !Passes(l, s, ready, turns, last)
    ensures LoopMakes(l, s, ready, turns, last + 1)
  {
    hide Turns, Passes;
  }

  /** The exit refuses the transaction in a way that it cannot have broadcast. */
  predicate PlainlyRefused(submit: SubmitReply) { submit.GasCapExceeded? || submit.OtherRejection? }

  /** How long awaitSettlement waits for a quote. */
  function AwaitUntil(s: Settings, ready: Ready, q: Quote, turn: Turn): int {
    turn.confirmMs
    + if s.timeoutMs.Some? then s.timeoutMs.value
      else Max(q.validUntil - NowUnix(ready, turn.confirmMs), 0) * 1000 + GRACE_MS
  }

  ghost function ConfirmedBy(l: Ledger, s: Settings, ready: Ready, q: Quote, turn: Turn): Evidence {
    if PlainlyRefused(turn.submit) then
      EvidenceOf(l, s, Pending(l.hash(q), q.validUntil), false, turn.confirmMs + Patience(s), s.timeoutMs.Some?, turn.polls)
    else AwaitOf(l, s, q, ready.block, AwaitUntil(s, ready, q, turn), turn.polls)
  }

  /** Steps 5 and 6 after the calldata may have left: Final ends the attempt, Expired and Unconsumed go on
      to the next exit. */
  method Confirm(l: Ledger, s: Settings, ready: Ready, q: Quote, turn: Turn) returns (e: Evidence)
    requires Lawful(l) && Buys(s, q) && q.feeAsset == s.feeAsset
    ensures e == ConfirmedBy(l, s, ready, q, turn)
    ensures e.Final? ==> Truthful(l, s, e.result) && !e.result.DryRun?
    ensures e.Final? && e.result.NotPaid? ==> SpentElsewhere(l, s)
  {
    hide Lawful, Buys, Truthful, SpentElsewhere, NeverSettles, NowUnix, AwaitOf, EvidenceOf;
    if turn.submit.GasCapExceeded? || turn.submit.OtherRejection? {
      e := PaymentEvidence(l, s, Pending(l.hash(q), q.validUntil), false, turn.confirmMs, turn.polls);
    } else {
      var left := Max(q.validUntil - NowUnix(ready, turn.confirmMs), 0);
      var patience := if s.timeoutMs.Some? then s.timeoutMs.value else left * 1000 + GRACE_MS;
      e := AwaitSettlement(l, s, q, ready.block, turn.confirmMs + patience, turn.polls);
    }
  }

  /** Quotes whose calldata may have left, all for this action and payment and all within the cap. */
  ghost predicate AllBuy(s: Settings, submitted: seq<Quote>) {
    forall k :: 0 <= k < |submitted| ==> Buys(s, submitted[k])
  }

  lemma MatchingQuoteBuys(s: Settings, ready: Ready, plan: GasPlan, turn: Turn, q: Quote)
    requires QuoteMatches(q, RequestFor(s, ready, plan, turn)) && q.Total() <= s.maxTotalFee
    ensures Buys(s, q) && q.feeAsset == s.feeAsset
  {}

  /** How a turn of the loop ends: None where a poll script ran out. */
  datatype TurnEnd = Ends(result: Option<PaidResult>) | GoesOn(last: PaidResult)

  /** What the loop remembers of a turn after which it goes on. */
  function LastOf(submit: SubmitReply): PaidResult {
    match submit
    case GasCapExceeded => NotPaid(Submit, "GasCapExceeded")
    case OtherRejection(code) => NotPaid(Submit, code)
    case _ => NotPaid(Expiry, "QUOTE_EXPIRED_UNSETTLED")
  }

  /** How a turn ends. */
  ghost function TurnOf(l: Ledger, s: Settings, ready: Ready, bufferBps: nat, turn: Turn): TurnEnd
    requires Asks(s, ready, bufferBps, turn)
  {
    var plan := PlanPaidGas(GasFor(s, ready, bufferBps)).value;
    match AskQuote(l, s, ready, plan, turn)
    case Stop(result) => Ends(Some(result))
    case Again(last, _) => GoesOn(last)
    case Quoted(q, _) =>
      var refused := Refusal(l, s, ready, plan, bufferBps, q, turn);
      if refused.Some? then Ends(refused)
      else if turn.submit.RefusedLocally? then Ends(Some(NotPaid(Submit, "InvalidConfig")))
      else
        match ConfirmedBy(l, s, ready, q, turn)
        case Final(result) => Ends(Some(result))
        case Running => Ends(None)
        case _ => GoesOn(LastOf(turn.submit))
  }

  /** The turn for one exit: what it submits, what it adds to contacted and whether the loop goes on. */
  method TakeTurn(l: Ledger, s: Settings, ready: Ready, bufferBps: nat, turn: Turn)
    returns (end: TurnEnd, sent: Option<Quote>, charge: nat)
    requires Lawful(l) && Asks(s, ready, bufferBps, turn)
    ensures end == TurnOf(l, s, ready, bufferBps, turn)
    ensures sent == SentIn(l, s, ready, bufferBps, turn)
    ensures sent.Some? ==> Buys(s, sent.value) && !s.dryRun
    ensures charge == ChargedIn(l, s, ready, bufferBps, turn)
    ensures end.GoesOn? ==> end.last.NotPaid? && charge >= 1
    ensures end.Ends? ==> !AskQuote(l, s, ready, PlanPaidGas(GasFor(s, ready, bufferBps)).value, turn).Again?
    ensures end.Ends? && end.result.Some? ==>
      Truthful(l, s, end.result.value) && (end.result.value.DryRun? ==> s.dryRun)
  {
    hide Lawful, Buys, Truthful, SpentElsewhere, NowUnix, PlanPaidGas, QuoteMatches, QuoteIsBounded, RequestFor;
    hide AskQuote, Refusal, GasFor, CeilDiv, Times, ConfirmedBy;
    var plan := PlanPaidGas(GasFor(s, ready, bufferBps)).value;
    var asked := AskQuote(l, s, ready, plan, turn);
    if asked.Stop? { return Ends(Some(PlainNotPaid(l, s, asked.result.stage, asked.result.code))), None, 0; }
    charge := asked.charge;
    if asked.Again? { return GoesOn(asked.last), None, charge; }
    var q := asked.quote;
    var refused := Refusal(l, s, ready, plan, bufferBps, q, turn);
    if refused.Some? { TruthfulEnding(l, s, refused.value); return Ends(refused), None, charge; }
    if turn.submit.RefusedLocally? { return Ends(Some(PlainNotPaid(l, s, Submit, "InvalidConfig"))), None, charge; }
    MatchingQuoteBuys(s, ready, plan, turn, q);
    sent := Some(q);
    var e := Confirm(l, s, ready, q, turn);
    if e.Final? { return Ends(Some(e.result)), sent, charge; }
    if e.Running? { return Ends(None), sent, charge; }
    end := GoesOn(if turn.submit.GasCapExceeded? then NotPaid(Submit, "GasCapExceeded")
                  else if turn.submit.OtherRejection? then NotPaid(Submit, turn.submit.code)
                  else NotPaid(Expiry, "QUOTE_EXPIRED_UNSETTLED"));
  }

  /** The loop from turn k on: its result, and the number of its turns in all. last is what the turn before said. */
  ghost function AttemptOf(l: Ledger, s: Settings, ready: Ready, turns: nat -> Turn, k: nat, last: PaidResult)
    : (Option<PaidResult>, nat)
    decreases s.maxExits - Contacted(l, s, ready, turns, k)
  {
    var bufferBps := BufferAt(l, s, ready, turns, k);
    if Contacted(l, s, ready, turns, k) >= s.maxExits then (Some(last), k)
    else if !Asks(s, ready, bufferBps, turns(k)) then
      (Some(if PlanPaidGas(GasFor(s, ready, bufferBps)).None? then NotPaid(Precheck, "GAS_PLAN") else last), k)
    else
      match TurnOf(l, s, ready, bufferBps, turns(k))
      case Ends(result) => (result, k + 1)
      case GoesOn(next) =>
        TurnCharges(l, s, ready, turns, k);
        AttemptOf(l, s, ready, turns, k + 1, next)
  }

  const NO_EXIT: PaidResult := NotPaid(QuoteStage, "NO_PAID_EXIT")

  /** A turn after which the loop goes on uses up an exit. */
  lemma TurnCharges(l: Ledger, s: Settings, ready: Ready, turns: nat -> Turn, k: nat)
    requires Asks(s, ready, BufferAt(l, s, ready, turns, k), turns(k))
    requires TurnOf(l, s, ready, BufferAt(l, s, ready, turns, k), turns(k)).GoesOn?
    ensures Contacted(l, s, ready, turns, k + 1) > Contacted(l, s, ready, turns, k)
  {
    hide PlanPaidGas, AskQuote, GasFor, Refusal, ConfirmedBy, Sent;
  }

  lemma NoTurnYet(l: Ledger, s: Settings, ready: Ready, turns: nat -> Turn)
    ensures Sent(l, s, ready, turns, 0) == ([], s.bufferBps) && Contacted(l, s, ready, turns, 0) == 0
  {}

  /** The books after one turn more. */
  lemma TurnTaken(l: Ledger, s: Settings, ready: Ready, turns: nat -> Turn, k: nat, sent: Option<Quote>)
    requires sent == SentIn(l, s, ready, BufferAt(l, s, ready, turns, k), turns(k))
    requires Contacted(l, s, ready, turns, k) < s.maxExits && Asks(s, ready, BufferAt(l, s, ready, turns, k), turns(k))
    ensures Turns(l, s, ready, turns, k)
    ensures Contacted(l, s, ready, turns, k + 1)
         == Contacted(l, s, ready, turns, k) + ChargedIn(l, s, ready, BufferAt(l, s, ready, turns, k), turns(k))
    ensures var (before, bufferBps) := Sent(l, s, ready, turns, k);
      Sent(l, s, ready, turns, k + 1)
      == if sent.None? then (before, bufferBps)
         else (before + [sent.value], if turns(k).submit.GasCapExceeded? then bufferBps + BUFFER_STEP_BPS else bufferBps)
    ensures Passes(l, s, ready, turns, k) <==>
      AskQuote(l, s, ready, PlanPaidGas(GasFor(s, ready, BufferAt(l, s, ready, turns, k))).value, turns(k)).Again?
  {
    hide PlanPaidGas, AskQuote, GasFor, SentIn, ChargedIn;
  }

  /** attemptPaid, from step 2 on: r is None while a poll script ran out. */
  method Attempt(l: Ledger, s: Settings, ready: Ready, turns: nat -> Turn)
    returns (r: Option<PaidResult>, submitted: seq<Quote>, requests: nat)
    requires Lawful(l)
    ensures (r, requests) == AttemptOf(l, s, ready, turns, 0, NO_EXIT)
    ensures submitted == Sent(l, s, ready, turns, requests).0
    ensures AllBuy(s, submitted)
    ensures |submitted| <= requests <= s.maxExits
    ensures LoopMakes(l, s, ready, turns, requests)
    ensures s.dryRun ==> submitted == []
    ensures r.Some? ==> Truthful(l, s, r.value)
    ensures r.Some? && r.value.DryRun? ==> s.dryRun
  {
    hide Lawful, Buys, Truthful, PlanPaidGas, AskQuote, SentIn, GasFor, ChargedIn, LoopMakes, Sent, Contacted, Passes, TurnOf;
    NoTurnYet(l, s, ready, turns);
    submitted, requests := [], 0;
    var contacted: nat := 0;
    var bufferBps: nat := s.bufferBps;
    var last := NotPaid(QuoteStage, "NO_PAID_EXIT");
    while contacted < s.maxExits
      invariant requests <= contacted && requests <= s.maxExits
      invariant (submitted, bufferBps) == Sent(l, s, ready, turns, requests)
      invariant contacted == Contacted(l, s, ready, turns, requests)
      invariant forall k :: 0 <= k < requests ==> Turns(l, s, ready, turns, k)
      invariant |submitted| <= requests && AllBuy(s, submitted) && (s.dryRun ==> submitted == [])
      invariant last.NotPaid?
      invariant AttemptOf(l, s, ready, turns, 0, NO_EXIT) == AttemptOf(l, s, ready, turns, requests, last)
      decreases s.maxExits - contacted
    {
      var turn := turns(requests);
      if !Asks(s, ready, bufferBps, turn) {
        EndsBefore(l, s, ready, turns, requests);
        var stage, code := last.stage, last.code;
        if PlanPaidGas(GasFor(s, ready, bufferBps)).None? { stage, code := Precheck, "GAS_PLAN"; }
        return Some(PlainNotPaid(l, s, stage, code)), submitted, requests;
      }
      var end, sent, charge := TakeTurn(l, s, ready, bufferBps, turn);
      TurnTaken(l, s, ready, turns, requests, sent);
      requests := requests + 1;
      contacted := contacted + charge;
      if sent.Some? {
        submitted := submitted + [sent.value];
        if turn.submit.GasCapExceeded? { bufferBps := bufferBps + BUFFER_STEP_BPS; }
      }
      if end.Ends? {
        EndsIn(l, s, ready, turns, requests - 1);
        return end.result, submitted, requests;
      }
      last := end.last;
    }
    EndsBefore(l, s, ready, turns, requests);
    r := Some(PlainNotPaid(l, s, last.stage, last.code));
  }

  function PlainNotPaid(l: Ledger, s: Settings, stage: Stage, code: string): (r: PaidResult)
    ensures r.NotPaid? && Truthful(l, s, r)
  {
    NotPaid(stage, code)
  }

  lemma TruthfulEnding(l: Ledger, s: Settings, r: PaidResult)
    requires r.NotPaid? || r.DryRun? || r.Unknown?
    ensures Truthful(l, s, r)
  {}

  /* ----- the whole run ----- */

  function LatestOf(submitted: seq<Quote>): Option<Quote> {
    if submitted == [] then None
    else
      var (before, q) := (LatestOf(submitted[..|submitted| - 1]), submitted[|submitted| - 1]);
      if before.None? || q.validUntil > before.value.validUntil then Some(q) else before
  }

  /** The submitted quote that stays valid longest. */
  method Latest(submitted: seq<Quote>) returns (r: Option<Quote>)
    ensures r == LatestOf(submitted)
    ensures r.None? <==> submitted == []
    ensures r.Some? ==> r.value in submitted
    ensures r.Some? ==> forall q :: q in submitted ==> q.validUntil <= r.value.validUntil
  {
    r := None;
    assert submitted[..0] == [] && submitted[..|submitted|] == submitted;
    for k := 0 to |submitted|
      invariant r == LatestOf(submitted[..k])
      invariant r.None? <==> k == 0
      invariant r.Some? ==> r.value in submitted
      invariant r.Some? ==> forall j :: 0 <= j < k ==> submitted[j].validUntil <= r.value.validUntil
    {
      assert submitted[..k + 1][..k] == submitted[..k];
      if r.None? || submitted[k].validUntil > r.value.validUntil { r := Some(submitted[k]); }
    }
  }

  /** No quote of the run can ever settle. */
  ghost predicate NonePays(l: Ledger, submitted: seq<Quote>) {
    forall q :: q in submitted ==> NeverSettles(l, q)
  }

  lemma EvidenceIsFinal(l: Ledger, s: Settings, submitted: seq<Quote>, deadline: nat)
    requires Lawful(l) && AllBuy(s, submitted)
    requires forall q :: q in submitted ==> q.validUntil <= deadline
    requires UnspentAfter(l, s, deadline) || SpentElsewhere(l, s)
    ensures NonePays(l, submitted)
  {
    hide Lawful, UnspentAfter, SpentElsewhere, NeverSettles;
    forall q | q in submitted ensures NeverSettles(l, q) {
      if UnspentAfter(l, s, deadline) { UnspentIsFinal(l, s, deadline, q); } else { SpentElsewhereIsFinal(l, s, q); }
    }
  }

  /** The run never costs more than maxTotalFee, at any block. */
  ghost predicate WithinCap(l: Ledger, s: Settings, submitted: seq<Quote>) {
    forall block :: PaidBefore(l, QuotesIn(submitted), block) <= s.maxTotalFee
  }

  ghost function QuotesIn(submitted: seq<Quote>): set<Quote> { set q | q in submitted }

  lemma RunStaysWithinCap(l: Ledger, s: Settings, submitted: seq<Quote>)
    requires Lawful(l) && AllBuy(s, submitted)
    ensures WithinCap(l, s, submitted)
  {
    hide Lawful, PaidBefore;
    var quotes := QuotesIn(submitted);
    forall block: nat ensures PaidBefore(l, quotes, block) <= s.maxTotalFee {
      OnePaymentId(l, quotes, s.paymentId, s.maxTotalFee, block);
    }
  }

  /** What executePaid answers; None where a poll script ran out. */
  ghost function RunOf(l: Ledger, s: Settings, start: Start, turns: nat -> Turn, evidenceMs: nat, polls: seq<Poll>)
    : Option<PaidResult>
  {
    match CheckedOf(l, s, start)
    case Stopped(result) => Some(result)
    case Proceed(ready) =>
      var (result, requests) := AttemptOf(l, s, ready, turns, 0, NO_EXIT);
      var latest := LatestOf(Sent(l, s, ready, turns, requests).0);
      if result.None? || !result.value.NotPaid? || latest.None? then result
      else
        var q := Pending(l.hash(latest.value), latest.value.validUntil);
        match EvidenceOf(l, s, q, true, evidenceMs + Patience(s), s.timeoutMs.Some?, polls)
        case Running => None
        case Final(final) => Some(final)
        case _ => result
  }

  /** executePaid: r is None while a poll script ran out. Not-paid is final, whatever exits do; a reported
      settlement is real; the run never costs more than the cap; and a payment that was already consumed, or
      a pending execution that may still settle, keeps it from submitting anything. */
  method ExecutePaid(l: Ledger, s: Settings, start: Start, turns: nat -> Turn, evidenceMs: nat, polls: seq<Poll>)
    returns (r: Option<PaidResult>, submitted: seq<Quote>, requests: nat)
    requires Lawful(l)
    ensures r == RunOf(l, s, start, turns, evidenceMs, polls)
    ensures submitted == Sent(l, s, ReadyAt(l, start), turns, requests).0
    ensures r.Some? && r.value.NotPaid? ==> NonePays(l, submitted)
    ensures r.Some? ==> Truthful(l, s, r.value)
    ensures WithinCap(l, s, submitted)
    ensures |submitted| <= requests <= s.maxExits
    ensures requests > 0 ==> LoopMakes(l, s, ReadyAt(l, start), turns, requests)
    ensures Reached(l, s, ReadyAt(l, start), turns, requests) <= 2 * s.maxExits
    ensures s.dryRun || (r.Some? && r.value.DryRun?) ==> submitted == []
    ensures Consumed(l, ByPayment(s.paymentId), start.block) || Consumed(l, ByIntent(s.intentId), start.block)
            ==> requests == 0
    ensures s.pending.Some? && requests > 0 ==>
      forall q: Quote :: q.paymentId == s.paymentId && q.validUntil <= s.pending.value.validUntil ==> NeverSettles(l, q)
  {
    hide Lawful, Truthful, SpentElsewhere, UnspentAfter, NeverSettles, Consumed, Buys, PaidBefore, LoopMakes;
    hide AttemptOf, CheckedOf, EvidenceOf, LatestOf, Sent, WithinCap;
    submitted, requests := [], 0;
    RunStaysWithinCap(l, s, []);
    NoTurnYet(l, s, ReadyAt(l, start), turns);
    var checked := CheckState(l, s, start);
    if checked.Stopped? { return Some(checked.result), [], 0; }
    var ready := checked.ready;
    r, submitted, requests := Attempt(l, s, ready, turns);
    RunStaysWithinCap(l, s, submitted);
    PendingIsFinal(l, s, ready);
    if r.None? || !r.value.NotPaid? { return; }
    var latest := Latest(submitted);
    if latest.None? { return; }
    var q := latest.value;
    var e := PaymentEvidence(l, s, Pending(l.hash(q), q.validUntil), true, evidenceMs, polls);
    if e.Running? { r := None; return; }
    if e.Expired? || e.result.NotPaid? { EvidenceIsFinal(l, s, submitted, q.validUntil); }
    if e.Final? { r := Some(e.result); }
  }

  lemma PendingIsFinal(l: Ledger, s: Settings, ready: Ready)
    requires Lawful(l) && Untouched(l, s, ready)
    ensures s.pending.Some? ==>
      forall q: Quote :: q.paymentId == s.paymentId && q.validUntil <= s.pending.value.validUntil ==> NeverSettles(l, q)
  {
    hide Lawful, UnspentAfter, NeverSettles, Consumed;
    forall q: Quote | s.pending.Some? && q.paymentId == s.paymentId && q.validUntil <= s.pending.value.validUntil
      ensures NeverSettles(l, q)
    {
      UnspentIsFinal(l, s, s.pending.value.validUntil, q);
    }
  }
}
