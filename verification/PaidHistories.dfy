/** Chains constructed to show when the verdicts before the first quote are wrong, and that lawful chains
    exist. */
module PaidHistories {
  import opened Outcomes
  import opened PaidQuotes
  import opened PaidLedger
  import opened PaidExecution

  /* ----- a hash of quotes without collisions ----- */

  function Triangle(n: nat): nat { if n == 0 then 0 else Triangle(n - 1) + n }

  /** Cantor's pairing. */
  function Pair(a: nat, b: nat): nat { Triangle(a + b) + b }

  lemma {:induction false} TriangleGrows(m: nat, n: nat)
    requires m < n
    ensures Triangle(m) + m < Triangle(n)
  {
    if m < n - 1 { TriangleGrows(m, n - 1); }
  }

  lemma PairInjective(a: nat, b: nat, c: nat, d: nat)
    requires Pair(a, b) == Pair(c, d)
    ensures a == c && b == d
  {
    hide Triangle;
    if a + b < c + d { TriangleGrows(a + b, c + d); }
    if c + d < a + b { TriangleGrows(c + d, a + b); }
  }

  function Code(fields: seq<nat>): nat { if fields == [] then 0 else Pair(fields[0], Code(fields[1..])) }

  lemma {:induction false} CodeInjective(x: seq<nat>, y: seq<nat>)
    requires |x| == |y| && Code(x) == Code(y)
    ensures x == y
  {
    hide Pair;
    if x != [] {
      PairInjective(x[0], Code(x[1..]), y[0], Code(y[1..]));
      CodeInjective(x[1..], y[1..]);
      assert x == [x[0]] + x[1..] && y == [y[0]] + y[1..];
    }
  }

  function Fields(q: Quote): seq<nat> {
    [q.version, q.chainId, q.entryPoint, q.exit, q.intentId, q.adapter, q.paymentId, q.feeAsset, q.exitFee,
     q.networkFee, q.paymentGas, q.target, q.calldataHash, q.actionGas, q.assetsHash, q.maximumGas,
     q.maximumFeePerGas, q.returnLimit, q.validAfter, q.validUntil, q.nonce]
  }

  lemma FieldsInjective(p: Quote, q: Quote)
    requires Fields(p) == Fields(q)
    ensures p == q
  {
    var (x, y) := (Fields(p), Fields(q));
    assert x[0] == y[0] && x[1] == y[1] && x[2] == y[2] && x[3] == y[3] && x[4] == y[4] && x[5] == y[5] && x[6] == y[6];
    assert x[7] == y[7] && x[8] == y[8] && x[9] == y[9] && x[10] == y[10] && x[11] == y[11] && x[12] == y[12];
    assert x[13] == y[13] && x[14] == y[14] && x[15] == y[15] && x[16] == y[16] && x[17] == y[17] && x[18] == y[18];
    assert x[19] == y[19] && x[20] == y[20];
  }

  function HashOf(q: Quote): Id { Code(Fields(q)) }

  lemma HashInjective(p: Quote, q: Quote)
    requires HashOf(p) == HashOf(q)
    ensures p == q
  {
    hide Code;
    CodeInjective(Fields(p), Fields(q));
    FieldsInjective(p, q);
  }

  /* ----- a chain with one settlement ----- */

  function LogOf(q: Quote, block: nat): Log {
    Log(HashOf(q), q.paymentId, q.exit, q.feeAsset, q.exitFee, q.networkFee, q.target, true, 0, 0, 0, block)
  }

  /** The chain on which q settles at one block and nothing else ever does. */
  function Settling(q: Quote, at: nat): Ledger {
    Ledger((b: nat) => q.validAfter, (b: nat) => if b == at then [Settlement(q, LogOf(q, at))] else [],
           (transaction: Id) => Some(q), HashOf)
  }

  lemma SettlingIsLawful(q: Quote, at: nat)
    requires q.validAfter <= q.validUntil
    ensures Lawful(Settling(q, at)) && SettlesIn(Settling(q, at), q, at)
  {
    hide HashOf;
    var l := Settling(q, at);
    forall x, y | l.hash(x) == l.hash(y) ensures x == y { HashInjective(x, y); }
    assert l.settlements(at)[0].quote == q;
  }

  /** Ids of q are consumed from that block on. */
  lemma ConsumedSince(q: Quote, at: nat, query: Query, block: nat)
    requires query in {ByPayment(q.paymentId), ByIntent(q.intentId)}
    ensures Consumed(Settling(q, at), query, block) <==> block >= at
  {
    hide HashOf;
    var l := Settling(q, at);
    assert HitAt(l, query, at, 0);
    assert BlockHits(l, query, at);
  }

  /* ----- when flags that disagree decide ----- */

  /** Reads of the flags at the two blocks. */
  ghost predicate ReadSo(l: Ledger, unset: Query, unsetAt: nat, taken: Query, takenAt: nat) {
    Lawful(l) && !Consumed(l, unset, unsetAt) && Consumed(l, taken, takenAt)
  }

  /** One flag of a quote read unset and another one set: that decides that the quote never settles, on every
      chain that can be read so, exactly when the set flag was not read later. */
  lemma FlagsDecideExactly(q: Quote, unset: Query, unsetAt: nat, taken: Query, takenAt: nat)
    requires q.validAfter <= q.validUntil
    requires {unset, taken} <= {ByPayment(q.paymentId), ByIntent(q.intentId)}
    ensures (forall l :: ReadSo(l, unset, unsetAt, taken, takenAt) ==> NeverSettles(l, q)) <==> takenAt <= unsetAt
  {
    hide Lawful, Consumed, SettlesIn;
    if takenAt <= unsetAt {
      forall l | ReadSo(l, unset, unsetAt, taken, takenAt) ensures NeverSettles(l, q) {
        FlagsDecide(l, q, unset, unsetAt, taken, takenAt);
      }
    } else {
      var l := Settling(q, takenAt);
      SettlingIsLawful(q, takenAt);
      ConsumedSince(q, takenAt, unset, unsetAt);
      ConsumedSince(q, takenAt, taken, takenAt);
      assert ReadSo(l, unset, unsetAt, taken, takenAt) && !NeverSettles(l, q);
    }
  }

  /** A quote for this action and payment that uses the whole cap. */
  function QuoteFor(s: Settings): Quote {
    Quote(QUOTE_VERSION, s.chainId, s.entryPoint, 1, s.intentId, s.adapter, s.paymentId, s.feeAsset, s.maxTotalFee, 0,
          s.paymentGas, s.target, s.calldataHash, 1, s.assetsHash, 1, 1, s.returnLimit, 0, MAX_U64, 0)
  }

  const INTENT_CONSUMED: PaidResult := NotPaid(Precheck, "INTENT_CONSUMED")
  const PAYMENT_CONSUMED: PaidResult := NotPaid(Precheck, "PAYMENT_CONSUMED")

  /** A chain on which the verdict says that another execution consumed the intent, or the payment, while it is
      this very purchase that settles between the two reads. */
  lemma WrongVerdict(s: Settings, start: Start) returns (l: Ledger)
    requires start.intentLag != start.paymentLag
    ensures Lawful(l) && Buys(s, QuoteFor(s)) && !NeverSettles(l, QuoteFor(s))
    ensures FlagVerdict(l, s, start) == Some(if start.intentLag > start.paymentLag then INTENT_CONSUMED else PAYMENT_CONSUMED)
  {
    hide Lawful, Consumed, SettlesIn, HashOf;
    var q := QuoteFor(s);
    var at := start.block + Max(start.intentLag, start.paymentLag);
    l := Settling(q, at);
    SettlingIsLawful(q, at);
    ConsumedSince(q, at, ByPayment(s.paymentId), start.block + start.paymentLag);
    ConsumedSince(q, at, ByIntent(s.intentId), start.block + start.intentLag);
  }

  /** The verdicts before the first quote are final, on every chain that gives them, exactly when the set flag
      was not read at a later block than the unset one. */
  lemma VerdictsAreFinalExactly(s: Settings, start: Start)
    ensures (forall l :: Lawful(l) && FlagVerdict(l, s, start) == Some(INTENT_CONSUMED) ==> NothingCanSettle(l, s))
       <==> start.intentLag <= start.paymentLag
    ensures (forall l :: Lawful(l) && FlagVerdict(l, s, start) == Some(PAYMENT_CONSUMED) ==> NothingCanSettle(l, s))
       <==> start.paymentLag <= start.intentLag
  {
    hide Lawful, Consumed, NeverSettles;
    forall l | Lawful(l) && start.intentLag <= start.paymentLag && FlagVerdict(l, s, start) == Some(INTENT_CONSUMED)
      ensures NothingCanSettle(l, s)
    {
      DisagreeingFlags(l, s, ByPayment(s.paymentId), start.block + start.paymentLag,
                       ByIntent(s.intentId), start.block + start.intentLag);
    }
    forall l | Lawful(l) && start.paymentLag <= start.intentLag && FlagVerdict(l, s, start) == Some(PAYMENT_CONSUMED)
      ensures NothingCanSettle(l, s)
    {
      DisagreeingFlags(l, s, ByIntent(s.intentId), start.block + start.intentLag,
                       ByPayment(s.paymentId), start.block + start.paymentLag);
    }
    if start.intentLag != start.paymentLag {
      var l := WrongVerdict(s, start);
      assert !NothingCanSettle(l, s);
    }
  }
}
