/** How many exits a paid execution reaches, against its maxExits. */
module PaidExits {
  import opened Outcomes
  import opened PaidQuotes
  import opened PaidLedger
  import opened PaidExecution

  /* ----- what the loop miscounts ----- */

  /** A second exit was asked and the loop counts one: the reply is a rejection, does not decrypt, is no valid
      quote, or comes from the requested exit after all. */
  predicate Uncounted(l: Ledger, s: Settings, ready: Ready, bufferBps: nat, turn: Turn) {
    && Sends(s, ready, bufferBps, turn) && SecondExit(turn)
    && match turn.reply
       case Rejected(_, _) => true
       case Undecryptable(_) => true
       case Replied(signed, _) =>
         || Some(signed.from) == turn.exit
         || !QuoteIsIssued(signed, RequestFor(s, ready, PlanPaidGas(GasFor(s, ready, bufferBps)).value, turn), l.hash)
       case _ => false
  }

  /** Exits reached and not counted in a turn. A request that fails otherwise ends the run and is not counted at
      all. */
  function MissedIn(l: Ledger, s: Settings, ready: Ready, bufferBps: nat, turn: Turn): nat {
    if Sends(s, ready, bufferBps, turn) && turn.reply.Failed? then if SecondExit(turn) then 2 else 1
    else if Uncounted(l, s, ready, bufferBps, turn) then 1 else 0
  }

  /** Exits counted and not reached: a timeout counts for two, resent or not. */
  function SparedIn(s: Settings, ready: Ready, bufferBps: nat, turn: Turn): nat {
    if Sends(s, ready, bufferBps, turn) && turn.reply.TimedOut? && !turn.reply.resent then 1 else 0
  }

  function Missed(l: Ledger, s: Settings, ready: Ready, turns: nat -> Turn, n: nat): nat {
    if n == 0 then 0
    else
      Missed(l, s, ready, turns, n - 1)
      + MissedIn(l, s, ready, BufferAt(l, s, ready, turns, n - 1), turns(n - 1))
  }

  function Spared(l: Ledger, s: Settings, ready: Ready, turns: nat -> Turn, n: nat): nat {
    if n == 0 then 0
    else Spared(l, s, ready, turns, n - 1) + SparedIn(s, ready, BufferAt(l, s, ready, turns, n - 1), turns(n - 1))
  }

  lemma TurnIsAccounted(l: Ledger, s: Settings, ready: Ready, bufferBps: nat, turn: Turn)
    ensures ReachedIn(s, ready, bufferBps, turn) + SparedIn(s, ready, bufferBps, turn)
         == ChargedIn(l, s, ready, bufferBps, turn) + MissedIn(l, s, ready, bufferBps, turn)
  {
    hide PlanPaidGas, RequestFor, RequestIsValid, GasFor, QuoteMatches, QuoteIsBounded;
  }

  /** The exits a run reached are those it counted, and those it missed, less those it counted in vain. */
  lemma {:induction false} RunIsAccounted(l: Ledger, s: Settings, ready: Ready, turns: nat -> Turn, n: nat)
    ensures Reached(l, s, ready, turns, n) + Spared(l, s, ready, turns, n)
         == Contacted(l, s, ready, turns, n) + Missed(l, s, ready, turns, n)
  {
    hide ReachedIn, ChargedIn, MissedIn, SparedIn, BufferAt;
    if n > 0 {
      RunIsAccounted(l, s, ready, turns, n - 1);
      TurnIsAccounted(l, s, ready, BufferAt(l, s, ready, turns, n - 1), turns(n - 1));
    }
  }

  /* ----- when maxExits bounds the exits ----- */

  /** A turn that asks a second exit with only one left. */
  predicate Overdraws(l: Ledger, s: Settings, ready: Ready, turns: nat -> Turn, k: nat) {
    && Contacted(l, s, ready, turns, k) + 1 == s.maxExits
    && ChargedIn(l, s, ready, BufferAt(l, s, ready, turns, k), turns(k)) == 2
  }

  ghost predicate Overdrawn(l: Ledger, s: Settings, ready: Ready, turns: nat -> Turn, n: nat) {
    exists k: nat :: k < n && Overdraws(l, s, ready, turns, k)
  }

  lemma {:induction false} ContactedGrows(l: Ledger, s: Settings, ready: Ready, turns: nat -> Turn, m: nat, n: nat)
    requires m <= n
    ensures Contacted(l, s, ready, turns, m) <= Contacted(l, s, ready, turns, n)
  {
    hide ChargedIn, BufferAt;
    if m < n { ContactedGrows(l, s, ready, turns, m, n - 1); }
  }

  lemma ChargeIsSmall(l: Ledger, s: Settings, ready: Ready, bufferBps: nat, turn: Turn)
    ensures ChargedIn(l, s, ready, bufferBps, turn) <= 2
  {
    hide PlanPaidGas, AskQuote, GasFor;
  }

  /** A run that used up its exits has counted exactly maxExits, or one more when its last turn overdrew. */
  lemma LastTurnOverdraws(l: Ledger, s: Settings, ready: Ready, turns: nat -> Turn, n: nat)
    requires forall k :: 0 <= k < n ==> Turns(l, s, ready, turns, k)
    requires Contacted(l, s, ready, turns, n) >= s.maxExits
    ensures Contacted(l, s, ready, turns, n) == s.maxExits + if Overdrawn(l, s, ready, turns, n) then 1 else 0
  {
    hide ChargedIn, BufferAt, Asks;
    if n > 0 {
      assert Turns(l, s, ready, turns, n - 1);
      ChargeIsSmall(l, s, ready, BufferAt(l, s, ready, turns, n - 1), turns(n - 1));
      if Contacted(l, s, ready, turns, n) > s.maxExits { assert Overdraws(l, s, ready, turns, n - 1); }
      if k: nat :| k < n && Overdraws(l, s, ready, turns, k) {
        ContactedGrows(l, s, ready, turns, k + 1, n);
      }
    }
  }

  /** Requests that left the client, and those of them for which a second exit was asked. */
  function Requests(l: Ledger, s: Settings, ready: Ready, turns: nat -> Turn, n: nat): nat {
    if n == 0 then 0
    else
      Requests(l, s, ready, turns, n - 1)
      + if Sends(s, ready, BufferAt(l, s, ready, turns, n - 1), turns(n - 1)) then 1 else 0
  }

  function Seconds(l: Ledger, s: Settings, ready: Ready, turns: nat -> Turn, n: nat): nat {
    if n == 0 then 0
    else
      Seconds(l, s, ready, turns, n - 1)
      + if Sends(s, ready, BufferAt(l, s, ready, turns, n - 1), turns(n - 1)) && SecondExit(turns(n - 1)) then 1 else 0
  }

  lemma {:induction false} ReachedByReplies(l: Ledger, s: Settings, ready: Ready, turns: nat -> Turn, n: nat)
    ensures Reached(l, s, ready, turns, n) == Requests(l, s, ready, turns, n) + Seconds(l, s, ready, turns, n)
    ensures Requests(l, s, ready, turns, n) <= n
  {
    hide Sends, BufferAt, SecondExit;
    if n > 0 { ReachedByReplies(l, s, ready, turns, n - 1); }
  }

  /** When the exits a run reaches stay within maxExits. For every run: exactly when the second exits asked fit what
      its requests leave. For a run that used up its exits: exactly when the exits it missed, and the one it
      overdrew, are made up for by those it counted in vain. They are never more than twice the requests. */
  lemma ReachedWithinExactly(l: Ledger, s: Settings, ready: Ready, turns: nat -> Turn, requests: nat)
    requires LoopMakes(l, s, ready, turns, requests)
    ensures Reached(l, s, ready, turns, requests) <= 2 * requests
    ensures Reached(l, s, ready, turns, requests) <= s.maxExits <==>
      Seconds(l, s, ready, turns, requests) <= s.maxExits - Requests(l, s, ready, turns, requests)
    ensures Contacted(l, s, ready, turns, requests) >= s.maxExits ==>
      (Reached(l, s, ready, turns, requests) <= s.maxExits <==>
       Missed(l, s, ready, turns, requests) + (if Overdrawn(l, s, ready, turns, requests) then 1 else 0)
       <= Spared(l, s, ready, turns, requests))
  {
    hide Turns, Overdrawn, Contacted, Reached, Missed, Spared, Requests, Seconds;
    RunIsAccounted(l, s, ready, turns, requests);
    ReachedByReplies(l, s, ready, turns, requests);
    if Contacted(l, s, ready, turns, requests) >= s.maxExits { LastTurnOverdraws(l, s, ready, turns, requests); }
  }

  /* ----- runs that reach more ----- */

  /** One exit allowed and a second one asked, whoever answers and whatever: two are reached. */
  lemma OneAllowedTwoReached(l: Ledger, s: Settings, ready: Ready, turns: nat -> Turn, requests: nat)
    requires s.maxExits == 1 && LoopMakes(l, s, ready, turns, requests)
    requires Sends(s, ready, s.bufferBps, turns(0)) && SecondExit(turns(0))
    ensures requests >= 1 && Reached(l, s, ready, turns, requests) >= 2
  {
    hide PlanPaidGas, GasFor, AskQuote, RequestIsValid, RequestFor;
    assert Sent(l, s, ready, turns, 0).1 == s.bufferBps;
    assert Turns(l, s, ready, turns, 0);
    assert MadeForSure(l, s, ready, turns, 1);
    ReachedGrows(l, s, ready, turns, 1, requests);
  }

  lemma {:induction false} ReachedGrows(l: Ledger, s: Settings, ready: Ready, turns: nat -> Turn, m: nat, n: nat)
    requires m <= n
    ensures Reached(l, s, ready, turns, m) <= Reached(l, s, ready, turns, n)
  {
    hide ReachedIn, BufferAt;
    if m < n { ReachedGrows(l, s, ready, turns, m, n - 1); }
  }

  /** Every turn sends a request that is resent and then rejected; the exits may all be different. */
  ghost predicate AllRejected(s: Settings, ready: Ready, turns: nat -> Turn) {
    forall k: nat :: RejectedIn(s, ready, turns(k))
  }

  predicate RejectedIn(s: Settings, ready: Ready, turn: Turn) {
    Sends(s, ready, s.bufferBps, turn) && turn.reply.Rejected? && turn.reply.resent
  }

  lemma {:induction false} RejectedRun(l: Ledger, s: Settings, ready: Ready, turns: nat -> Turn, n: nat)
    requires AllRejected(s, ready, turns)
    ensures Sent(l, s, ready, turns, n) == ([], s.bufferBps)
    ensures Contacted(l, s, ready, turns, n) == n && Reached(l, s, ready, turns, n) == 2 * n
    ensures Passes(l, s, ready, turns, n) && Asks(s, ready, BufferAt(l, s, ready, turns, n), turns(n))
  {
    hide PlanPaidGas, GasFor, RequestIsValid, RequestFor, Refusal;
    assert RejectedIn(s, ready, turns(n));
    if n > 0 {
      RejectedRun(l, s, ready, turns, n - 1);
      assert RejectedIn(s, ready, turns(n - 1));
    }
  }

  /** Whatever maxExits is, exits that all reject after a resend make a run reach twice as many. */
  lemma TwiceAsMany(l: Ledger, s: Settings, ready: Ready, turns: nat -> Turn, requests: nat)
    requires AllRejected(s, ready, turns) && LoopMakes(l, s, ready, turns, requests)
    ensures requests == s.maxExits && Reached(l, s, ready, turns, requests) == 2 * s.maxExits
  {
    hide Contacted, Reached, Passes, Sent, Asks, AllRejected;
    forall k: nat ensures Contacted(l, s, ready, turns, k) == k && Passes(l, s, ready, turns, k)
      ensures Asks(s, ready, BufferAt(l, s, ready, turns, k), turns(k))
    {
      RejectedRun(l, s, ready, turns, k);
    }
    assert MadeForSure(l, s, ready, turns, s.maxExits);
    assert requests > s.maxExits ==> Turns(l, s, ready, turns, s.maxExits);
    RejectedRun(l, s, ready, turns, requests);
  }

  /* ----- a purchase that shows each way ----- */

  /** One exit allowed, everything else unremarkable. */
  const BUYER: Settings :=
    Settings(1, 1, 1, 1, 1, 1, 1, 1, 0, 256, 1_000, 100_000, 64, 10_000, 2_000, 500, 5_000, None, 12, 1, false, None,
             16_000, None)

  const READY: Ready := Ready(10, 1_000, 100_000, 0, 1_000_000)

  /** A turn with exit 1 and the given reply. */
  function Replying(reply: QuoteReply): Turn {
    Turn(Some(1), 1_000, 1_000_000, reply, 1_000_000, None, 1_000_000, None, None, 1_000_000, NoAnswer, 1_000_000, [])
  }

  lemma BuyerSends(reply: QuoteReply)
    ensures Sends(BUYER, READY, BUYER.bufferBps, Replying(reply))
  {}

  /** The quote that an exit signs for BUYER, as the request demands it. */
  function QuoteOf(l: Ledger, exit: Id): SignedQuote {
    var plan := PlanPaidGas(GasFor(BUYER, READY, BUYER.bufferBps));
    var q := Quote(QUOTE_VERSION, 1, 1, exit, 1, 1, 1, 1, 500, 500, 100_000, 1, 1, 100_000, 0,
                   if plan.Some? then plan.value.maximumGas else 0, 1, 256, 1_000, 1_060, 0);
    SignedQuote(q, l.hash(q), Some(exit), exit)
  }

  /** The client takes such a quote. */
  lemma QuoteIsTaken(l: Ledger, exit: Id, resent: bool)
    ensures QuoteOf(l, exit).from == exit
    ensures var turn := Replying(Replied(QuoteOf(l, exit), resent));
      var plan := PlanPaidGas(GasFor(BUYER, READY, BUYER.bufferBps));
      plan.Some? && AskQuote(l, BUYER, READY, plan.value, turn).Quoted?
  {
    BuyerSends(Replied(QuoteOf(l, exit), resent));
  }

  /** Ways to reach two exits with maxExits at one. Not counted: after a resend, a rejection, bytes that do not
      decrypt, a failure, a quote that is not valid, or a valid quote of the requested exit after all. Counted when
      it is too late: a timeout after a resend, or a valid quote of the second exit. */
  lemma EveryWayOverruns(l: Ledger, reply: QuoteReply, turns: nat -> Turn, requests: nat)
    requires reply in {Rejected("", true), Undecryptable(true), Failed("", true),
                       Replied(QuoteOf(l, 2).(signer := None), true), Replied(QuoteOf(l, 1), true),
                       TimedOut(true), Replied(QuoteOf(l, 2), true)}
    requires turns(0) == Replying(reply) && LoopMakes(l, BUYER, READY, turns, requests)
    ensures BUYER.maxExits == 1 && Reached(l, BUYER, READY, turns, requests) >= 2
    ensures reply in {Replied(QuoteOf(l, 1), true), Replied(QuoteOf(l, 2), true)} ==>
      AskQuote(l, BUYER, READY, PlanPaidGas(GasFor(BUYER, READY, BUYER.bufferBps)).value, turns(0)).Quoted?
  {
    hide Reached, LoopMakes, Sends, QuoteOf, AskQuote, PlanPaidGas, GasFor;
    BuyerSends(reply);
    OneAllowedTwoReached(l, BUYER, READY, turns, requests);
    QuoteIsTaken(l, 1, true);
    QuoteIsTaken(l, 2, true);
  }
}
