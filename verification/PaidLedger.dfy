/** The chain a paid execution runs against: its whole history, past and future, as one value. Reading it at a
    block is truthful; what the exits and everybody else do shows only in which lawful history it is. */
module PaidLedger {
  import opened Outcomes
  import opened PaidQuotes

  /** A PaidExecutionSettled event. */
  datatype Log = Log(
    executionId: Id, paymentId: Id, exit: Id, feeAsset: Id, exitFee: nat, networkFee: nat, target: Id,
    success: bool, returnLength: nat, returnHash: Id, transaction: Id, block: nat)

  /** A settlement: the quote the EntryPoint executed and the event it left. */
  datatype Settlement = Settlement(quote: Quote, log: Log)

  /** Block times, settlements of each block, the quote that a transaction's calldata decodes to, and the
      hash of quotes. */
  datatype Ledger = Ledger(
    time: nat -> nat, settlements: nat -> seq<Settlement>, input: Id -> Option<Quote>, hash: Quote -> Id)

  datatype Query = ByExecution(id: Id) | ByPayment(id: Id) | ByIntent(id: Id)

  predicate Hits(l: Ledger, query: Query, s: Settlement) {
    match query
    case ByExecution(id) => l.hash(s.quote) == id
    case ByPayment(id) => s.quote.paymentId == id
    case ByIntent(id) => s.quote.intentId == id
  }

  predicate HitAt(l: Ledger, query: Query, block: nat, i: nat) {
    i < |l.settlements(block)| && Hits(l, query, l.settlements(block)[i])
  }

  predicate BlockHits(l: Ledger, query: Query, block: nat) {
    exists i: nat | i < |l.settlements(block)| :: HitAt(l, query, block, i)
  }

  /** The consumed flags of the EntryPoint at a block. */
  predicate Consumed(l: Ledger, query: Query, block: nat) {
    exists b: nat | b <= block :: BlockHits(l, query, b)
  }

  /** The event says what was executed, within the quote's validity. */
  ghost predicate SettlesLawfully(l: Ledger, s: Settlement, block: nat) {
    && s.quote.validAfter <= l.time(block) <= s.quote.validUntil
    && s.log.executionId == l.hash(s.quote)
    && s.log.paymentId == s.quote.paymentId && s.log.exit == s.quote.exit && s.log.feeAsset == s.quote.feeAsset
    && s.log.exitFee == s.quote.exitFee && s.log.networkFee == s.quote.networkFee
    && s.log.target == s.quote.target && s.log.block == block
  }

  ghost predicate HitsOnce(l: Ledger, query: Query) {
    forall b, i, c, j :: HitAt(l, query, b, i) && HitAt(l, query, c, j) ==> b == c && i == j
  }

  /** Time never runs back, settlements are lawful, each id is consumed once, hashes do not collide. */
  ghost predicate Lawful(l: Ledger) {
    && (forall a: nat, b: nat :: a <= b ==> l.time(a) <= l.time(b))
    && (forall b: nat, i: nat :: i < |l.settlements(b)| ==> SettlesLawfully(l, l.settlements(b)[i], b))
    && (forall query :: HitsOnce(l, query))
    && (forall p, q :: l.hash(p) == l.hash(q) ==> p == q)
  }

  ghost predicate SettlesIn(l: Ledger, q: Quote, block: nat) {
    exists i: nat :: i < |l.settlements(block)| && l.settlements(block)[i].quote == q
  }

  ghost predicate NeverSettles(l: Ledger, q: Quote) { forall b :: !SettlesIn(l, q, b) }

  lemma SettlingConsumes(l: Ledger, q: Quote, block: nat)
    requires SettlesIn(l, q, block)
    ensures BlockHits(l, ByPayment(q.paymentId), block)
    ensures BlockHits(l, ByIntent(q.intentId), block)
    ensures BlockHits(l, ByExecution(l.hash(q)), block)
  {
    var i: nat :| i < |l.settlements(block)| && l.settlements(block)[i].quote == q;
    assert HitAt(l, ByPayment(q.paymentId), block, i);
    assert HitAt(l, ByIntent(q.intentId), block, i);
    assert HitAt(l, ByExecution(l.hash(q)), block, i);
  }

  /** An id of the quote seen unconsumed at a block after its deadline: too late for ever. */
  lemma TooLate(l: Ledger, q: Quote, query: Query, block: nat)
    requires Lawful(l)
    requires query in {ByPayment(q.paymentId), ByIntent(q.intentId), ByExecution(l.hash(q))}
    requires l.time(block) > q.validUntil && !Consumed(l, query, block)
    ensures NeverSettles(l, q)
  {
    hide BlockHits, Hits;
    forall b: nat ensures !SettlesIn(l, q, b) {
      if SettlesIn(l, q, b) {
        SettlingConsumes(l, q, b);
        assert false;
      }
    }
  }

  /** A payment id consumed by one quote is lost to every other. */
  lemma TakenByAnother(l: Ledger, q: Quote, query: Query, block: nat, i: nat)
    requires Lawful(l)
    requires query in {ByPayment(q.paymentId), ByIntent(q.intentId)}
    requires HitAt(l, query, block, i) && l.settlements(block)[i].quote != q
    ensures NeverSettles(l, q)
  {
    assert HitsOnce(l, query);
    forall b: nat ensures !SettlesIn(l, q, b) {
      if SettlesIn(l, q, b) {
        var j: nat :| j < |l.settlements(b)| && l.settlements(b)[j].quote == q;
        assert HitAt(l, query, b, j);
        assert false;
      }
    }
  }

  /** Two flags of a quote read at two blocks, one unset and one set: another quote holds the second id,
      unless this one settled between the two reads. */
  lemma FlagsDecide(l: Ledger, q: Quote, unset: Query, unsetAt: nat, taken: Query, takenAt: nat)
    requires Lawful(l)
    requires {unset, taken} <= {ByPayment(q.paymentId), ByIntent(q.intentId)}
    requires !Consumed(l, unset, unsetAt) && Consumed(l, taken, takenAt)
    ensures NeverSettles(l, q) <==> forall b :: unsetAt < b <= takenAt ==> !SettlesIn(l, q, b)
  {
    hide Hits, SettlesIn, BlockHits, SettlesLawfully;
    forall b: nat | SettlesIn(l, q, b) ensures unsetAt < b <= takenAt {
      SettlingConsumes(l, q, b);
      assert BlockHits(l, taken, b) && HitsOnce(l, taken);
      OtherBlocksQuiet(l, taken, b);
    }
  }

  /* ----- what the payer pays ----- */

  ghost function PaidBy(ss: seq<Settlement>, quotes: set<Quote>): nat {
    if ss == [] then 0
    else
      var last := ss[|ss| - 1];
      PaidBy(ss[..|ss| - 1], quotes) + if last.quote in quotes then last.quote.Total() else 0
  }

  /** All that settlements of these quotes take from the payer before a block. */
  ghost function PaidBefore(l: Ledger, quotes: set<Quote>, block: nat): nat {
    if block == 0 then 0 else PaidBefore(l, quotes, block - 1) + PaidBy(l.settlements(block - 1), quotes)
  }

  ghost predicate OnePayment(quotes: set<Quote>, paymentId: Id, cap: nat) {
    forall q :: q in quotes ==> q.paymentId == paymentId && q.Total() <= cap
  }

  lemma {:induction false} NoHitPaysNothing(l: Ledger, quotes: set<Quote>, paymentId: Id, cap: nat, block: nat, k: nat)
    requires OnePayment(quotes, paymentId, cap) && k <= |l.settlements(block)|
    requires forall i :: 0 <= i < k ==> !HitAt(l, ByPayment(paymentId), block, i)
    ensures PaidBy(l.settlements(block)[..k], quotes) == 0
  {
    if k > 0 {
      var ss := l.settlements(block);
      NoHitPaysNothing(l, quotes, paymentId, cap, block, k - 1);
      assert ss[..k][..k - 1] == ss[..k - 1];
      assert !HitAt(l, ByPayment(paymentId), block, k - 1);
    }
  }

  lemma {:induction false} BlockPaysOnce(l: Ledger, quotes: set<Quote>, paymentId: Id, cap: nat, block: nat, k: nat)
    requires OnePayment(quotes, paymentId, cap) && k <= |l.settlements(block)|
    requires HitsOnce(l, ByPayment(paymentId))
    ensures PaidBy(l.settlements(block)[..k], quotes) <= cap
  {
    if k > 0 {
      var ss := l.settlements(block);
      BlockPaysOnce(l, quotes, paymentId, cap, block, k - 1);
      assert ss[..k][..k - 1] == ss[..k - 1];
      if HitAt(l, ByPayment(paymentId), block, k - 1) {
        NoHitPaysNothing(l, quotes, paymentId, cap, block, k - 1);
      }
    }
  }

  lemma QuietBlockPaysNothing(l: Ledger, quotes: set<Quote>, paymentId: Id, cap: nat, block: nat)
    requires OnePayment(quotes, paymentId, cap)
    requires !BlockHits(l, ByPayment(paymentId), block)
    ensures PaidBy(l.settlements(block), quotes) == 0
  {
    var ss := l.settlements(block);
    NoHitPaysNothing(l, quotes, paymentId, cap, block, |ss|);
    assert ss[..|ss|] == ss;
  }

  lemma {:induction false} QuietChainPaysNothing(l: Ledger, quotes: set<Quote>, paymentId: Id, cap: nat, block: nat)
    requires OnePayment(quotes, paymentId, cap)
    requires forall b: nat :: b < block ==> !BlockHits(l, ByPayment(paymentId), b)
    ensures PaidBefore(l, quotes, block) == 0
  {
    if block > 0 {
      QuietChainPaysNothing(l, quotes, paymentId, cap, block - 1);
      QuietBlockPaysNothing(l, quotes, paymentId, cap, block - 1);
    }
  }

  /** Quotes that share a payment id and stay under a cap never take more than the cap altogether, whoever
      submits them and however often. */
  lemma {:induction false} OnePaymentId(l: Ledger, quotes: set<Quote>, paymentId: Id, cap: nat, block: nat)
    requires Lawful(l) && OnePayment(quotes, paymentId, cap)
    ensures PaidBefore(l, quotes, block) <= cap
  {
    hide PaidBy, BlockHits, SettlesLawfully, OnePayment;
    if block > 0 {
      var ss := l.settlements(block - 1);
      OnePaymentId(l, quotes, paymentId, cap, block - 1);
      BlockPaysOnce(l, quotes, paymentId, cap, block - 1, |ss|);
      assert ss[..|ss|] == ss;
      if BlockHits(l, ByPayment(paymentId), block - 1) {
        OtherBlocksQuiet(l, ByPayment(paymentId), block - 1);
        QuietChainPaysNothing(l, quotes, paymentId, cap, block - 1);
      } else {
        QuietBlockPaysNothing(l, quotes, paymentId, cap, block - 1);
      }
    }
  }

  lemma OtherBlocksQuiet(l: Ledger, query: Query, block: nat)
    requires HitsOnce(l, query) && BlockHits(l, query, block)
    ensures forall b: nat :: b != block ==> !BlockHits(l, query, b)
  {}

  /* ----- reading logs ----- */

  function BlockLogs(l: Ledger, query: Query, block: nat, k: nat): seq<Log>
    requires k <= |l.settlements(block)|
  {
    if k == 0 then []
    else
      BlockLogs(l, query, block, k - 1)
      + if HitAt(l, query, block, k - 1) then [l.settlements(block)[k - 1].log] else []
  }

  /** What eth_getLogs answers for a block range. */
  function Logs(l: Ledger, query: Query, first: nat, last: int): seq<Log>
    decreases last - first + 1
  {
    if last < first then [] else Logs(l, query, first, last - 1) + BlockLogs(l, query, last, |l.settlements(last)|)
  }

  /** log is the event of a settlement in the range that the query hits. */
  ghost predicate IsEvent(l: Ledger, query: Query, first: int, last: int, log: Log) {
    exists b: nat, i: nat :: first <= b <= last && HitAt(l, query, b, i) && l.settlements(b)[i].log == log
  }

  lemma {:induction false} BlockLogsExact(l: Ledger, query: Query, block: nat, k: nat)
    requires k <= |l.settlements(block)| && HitsOnce(l, query)
    ensures |BlockLogs(l, query, block, k)| <= 1
    ensures BlockLogs(l, query, block, k) == [] <==> forall i: nat :: i < k ==> !HitAt(l, query, block, i)
    ensures forall log :: log in BlockLogs(l, query, block, k) ==> IsEvent(l, query, block, block, log)
  {
    if k > 0 { BlockLogsExact(l, query, block, k - 1); }
  }

  /** On a lawful chain a range holds no more than one event for an id, and it is found exactly when there. */
  lemma {:induction false} LogsExact(l: Ledger, query: Query, first: nat, last: int)
    requires HitsOnce(l, query)
    ensures |Logs(l, query, first, last)| <= 1
    ensures Logs(l, query, first, last) == [] <==> forall b: nat :: first <= b <= last ==> !BlockHits(l, query, b)
    ensures forall log :: log in Logs(l, query, first, last) ==> IsEvent(l, query, first, last, log)
    decreases last - first + 1
  {
    hide BlockLogs;
    if last >= first {
      LogsExact(l, query, first, last - 1);
      BlockLogsExact(l, query, last, |l.settlements(last)|);
      assert BlockLogs(l, query, last, |l.settlements(last)|) == [] <==> !BlockHits(l, query, last);
      if BlockHits(l, query, last) { OtherBlocksQuiet(l, query, last); }
    }
  }

  const LOG_RANGE: int := 2_000

  /** The newest range of at most LOG_RANGE blocks. */
  function RangeStart(fromBlock: nat, last: int): int { Max(last - LOG_RANGE + 1, fromBlock) }

  /** What walking the ranges from the newest on finds; None where a query fails. */
  function FoundIn(l: Ledger, query: Query, fromBlock: nat, last: int, fails: int -> bool): Option<Option<Log>>
    decreases last - fromBlock + 1
  {
    if last < fromBlock then Some(None)
    else if fails(last) then None
    else
      var found := Logs(l, query, RangeStart(fromBlock, last), last);
      if found != [] then Some(Some(found[0])) else FoundIn(l, query, fromBlock, last - LOG_RANGE, fails)
  }

  /** What is found is an event of the span, nothing is found only when the span holds none, and the search fails
      only when a query does. */
  lemma {:induction false} FoundIsExact(l: Ledger, query: Query, fromBlock: nat, last: int, fails: int -> bool)
    requires Lawful(l)
    ensures var r := FoundIn(l, query, fromBlock, last, fails);
      && (r.Some? && r.value.Some? ==> IsEvent(l, query, fromBlock, last, r.value.value))
      && (r.Some? && r.value.None? ==> forall b: nat :: fromBlock <= b <= last ==> !BlockHits(l, query, b))
      && (r.None? ==> exists t :: fromBlock <= t <= last && fails(t))
    decreases last - fromBlock + 1
  {
    hide Hits, BlockHits, HitAt, Logs, SettlesLawfully;
    if last >= fromBlock && !fails(last) {
      var first := RangeStart(fromBlock, last);
      assert HitsOnce(l, query);
      LogsExact(l, query, first, last);
      var found := Logs(l, query, first, last);
      if found != [] { assert found[0] in found; } else { FoundIsExact(l, query, fromBlock, last - LOG_RANGE, fails); }
    }
  }

  /** The settlement that a search for its id finds, when no query fails and the span holds it. */
  lemma SettlementIsFound(l: Ledger, query: Query, fromBlock: nat, last: int, fails: int -> bool, b: nat, i: nat)
    requires Lawful(l) && HitAt(l, query, b, i) && fromBlock <= b <= last && forall t :: !fails(t)
    ensures FoundIn(l, query, fromBlock, last, fails) == Some(Some(l.settlements(b)[i].log))
  {
    hide Hits, SettlesLawfully, FoundIn;
    FoundIsExact(l, query, fromBlock, last, fails);
    assert BlockHits(l, query, b) by { HitMeansHits(l, query, b, i); }
    var log := FoundIn(l, query, fromBlock, last, fails).value.value;
    var c: nat, j: nat :| fromBlock <= c <= last && HitAt(l, query, c, j) && l.settlements(c)[j].log == log;
    assert HitsOnce(l, query);
  }

  lemma HitMeansHits(l: Ledger, query: Query, b: nat, i: nat)
    requires HitAt(l, query, b, i)
    ensures BlockHits(l, query, b)
  {}

  /** findSettlement: newest range first, in ranges of at most 2,000 blocks that together cover the span, as far as
      the search goes. */
  method FindSettlement(l: Ledger, query: Query, fromBlock: nat, toBlock: int, fails: int -> bool)
    returns (r: Option<Option<Log>>, ghost asked: seq<(int, int)>)
    ensures r == FoundIn(l, query, fromBlock, toBlock, fails)
    ensures forall k :: 0 <= k < |asked| ==> fromBlock <= asked[k].0 <= asked[k].1 < asked[k].0 + 2_000
    ensures asked != [] ==> asked[0].1 == toBlock
    ensures forall k :: 0 < k < |asked| ==> asked[k].1 == asked[k - 1].0 - 1
    ensures r == Some(None) && fromBlock <= toBlock ==> asked != [] && asked[|asked| - 1].0 == fromBlock
  {
    hide Logs;
    asked := [];
    var last := toBlock;
    while last >= fromBlock
      invariant last == (if asked == [] then toBlock else asked[|asked| - 1].1 - LOG_RANGE)
      invariant FoundIn(l, query, fromBlock, toBlock, fails) == FoundIn(l, query, fromBlock, last, fails)
      invariant forall k :: 0 <= k < |asked| ==> fromBlock <= asked[k].0 <= asked[k].1 < asked[k].0 + 2_000
      invariant asked != [] ==> asked[0].1 == toBlock
      invariant forall k :: 0 < k < |asked| ==> asked[k].1 == asked[k - 1].0 - 1
      invariant asked != [] ==> asked[|asked| - 1].0 == Max(last + 1, fromBlock)
      decreases last - fromBlock
    {
      var first := RangeStart(fromBlock, last);
      assert asked != [] ==> asked[|asked| - 1].0 == last + 1;
      asked := asked + [(first, last)];
      if fails(last) { return None, asked; }
      var found := Logs(l, query, first, last);
      if |found| > 0 { return Some(Some(found[0])), asked; }
      last := last - LOG_RANGE;
    }
    return Some(None), asked;
  }
}
