/** Quotes of paid exits, the checks on them, and the gas plan behind a quote request. Addresses and 32-byte
    words are naturals, so comparing them is independent of letter case. */
module PaidQuotes {
  import opened Outcomes

  type Id = nat

  const QUOTE_VERSION: nat := 1
  const ENTRY_POINT_GAS_RESERVE: nat := 250_000
  const TRANSACTION_BASE_GAS: nat := 21_000
  const MAX_RETURN_DATA_LIMIT: nat := 4_096
  const MAX_U64: nat := 0xffff_ffff_ffff_ffff
  const MAX_SAFE_INTEGER: nat := 0x1f_ffff_ffff_ffff
  const BPS: nat := 10_000

  datatype Quote = Quote(
    version: nat, chainId: nat, entryPoint: Id, exit: Id, intentId: Id, adapter: Id, paymentId: Id, feeAsset: Id,
    exitFee: nat, networkFee: nat, paymentGas: nat, target: Id, calldataHash: Id, actionGas: nat,
    assetsHash: Id, maximumGas: nat, maximumFeePerGas: nat, returnLimit: nat,
    validAfter: nat, validUntil: nat, nonce: nat)
  {
    /** What a settlement of this quote takes from the payer. */
    function Total(): nat { exitFee + networkFee }
  }

  datatype Request = Request(
    chainId: nat, entryPoint: Id, intentId: Id, adapter: Id, paymentId: Id, feeAsset: Id, paymentGas: nat,
    target: Id, calldataHash: Id, actionGas: nat, assetsHash: Id, maximumGas: nat, returnLimit: nat,
    validUntil: nat)

  predicate PositiveU64(v: nat) { 0 < v <= MAX_U64 }

  predicate CoversReserve(maximumGas: nat, paymentGas: nat, actionGas: nat) {
    maximumGas >= paymentGas + actionGas + ENTRY_POINT_GAS_RESERVE
  }

  /** validatePaidQuoteRequest. */
  predicate RequestIsValid(r: Request, now: nat) {
    && PositiveU64(r.chainId)
    && r.entryPoint != 0 && r.intentId != 0 && r.adapter != 0 && r.paymentId != 0 && r.feeAsset != 0
    && r.target != 0 && r.calldataHash != 0
    && PositiveU64(r.paymentGas) && PositiveU64(r.actionGas) && PositiveU64(r.maximumGas)
    && PositiveU64(r.validUntil)
    && r.returnLimit <= MAX_RETURN_DATA_LIMIT
    && CoversReserve(r.maximumGas, r.paymentGas, r.actionGas)
    && r.validUntil > now
  }

  /** A request that is sent names a chain, all five addresses and every id, has limits of 64 bits that leave the
      EntryPoint its reserve, and has not expired. */
  lemma SendableRequests(r: Request, now: nat)
    ensures RequestIsValid(r, now) <==>
      && 0 !in [r.entryPoint, r.intentId, r.adapter, r.paymentId, r.feeAsset, r.target, r.calldataHash]
      && (forall v :: v in [r.chainId, r.paymentGas, r.actionGas, r.maximumGas, r.validUntil] ==> 0 < v < 0x1_0000_0000_0000_0000)
      && r.returnLimit <= 4_096 && r.maximumGas >= r.paymentGas + r.actionGas + 250_000 && now < r.validUntil
  {
    var ids := [r.entryPoint, r.intentId, r.adapter, r.paymentId, r.feeAsset, r.target, r.calldataHash];
    assert ids[0] == r.entryPoint && ids[1] == r.intentId && ids[2] == r.adapter && ids[3] == r.paymentId;
    assert ids[4] == r.feeAsset && ids[5] == r.target && ids[6] == r.calldataHash;
    var words := [r.chainId, r.paymentGas, r.actionGas, r.maximumGas, r.validUntil];
    assert words[0] == r.chainId && words[1] == r.paymentGas && words[2] == r.actionGas && words[3] == r.maximumGas;
    assert words[4] == r.validUntil;
    assert forall v :: v in words ==> v == words[0] || v == words[1] || v == words[2] || v == words[3] || v == words[4];
    assert forall k :: 0 <= k < 5 ==> words[k] in words;
    assert forall v :: v in ids ==> exists k :: 0 <= k < 7 && ids[k] == v;
    assert forall k :: 0 <= k < 7 ==> ids[k] in ids;
  }

  /** validateQuoteBounds, without a chain time. */
  predicate QuoteIsBounded(q: Quote) {
    && q.paymentGas > 0 && q.actionGas > 0
    && CoversReserve(q.maximumGas, q.paymentGas, q.actionGas)
    && q.maximumFeePerGas > 0
    && q.Total() > 0
    && q.returnLimit <= MAX_RETURN_DATA_LIMIT
    && q.validAfter <= q.validUntil
  }

  /** validateQuoteMatchesRequest. */
  predicate QuoteMatches(q: Quote, r: Request) {
    && q.entryPoint == r.entryPoint && q.intentId == r.intentId && q.adapter == r.adapter
    && q.paymentId == r.paymentId && q.feeAsset == r.feeAsset && q.target == r.target
    && q.calldataHash == r.calldataHash && q.assetsHash == r.assetsHash
    && q.chainId == r.chainId && q.paymentGas == r.paymentGas && q.actionGas == r.actionGas
    && q.maximumGas == r.maximumGas && q.returnLimit == r.returnLimit
    && q.validUntil <= r.validUntil
  }

  /** A reply that carries a quote: who answered, and what hashing and signature recovery say about it. */
  datatype SignedQuote = SignedQuote(quote: Quote, executionId: Id, signer: Option<Id>, from: Id)

  /** validateIssuedPaidQuote against the exit that answered. */
  predicate QuoteIsIssued(s: SignedQuote, r: Request, hash: Quote -> Id) {
    && s.quote.version == QUOTE_VERSION
    && s.quote.exit == s.from
    && s.executionId == hash(s.quote)
    && s.signer == Some(s.from)
    && QuoteIsBounded(s.quote)
    && QuoteMatches(s.quote, r)
  }

  /* ----- the gas plan ----- */

  datatype GasInput = GasInput(
    paymentGas: int, actionGas: int, calldataGas: int, dataFeeGas: int,
    bufferBps: int, headroomBps: int, dataFeeBps: int, clamp: Option<int>)

  datatype GasPlan = GasPlan(boundedGas: nat, envelopeGas: nat, maximumGas: nat)

  function CeilDiv(n: nat, d: nat): nat
    requires d > 0
  {
    (n + d - 1) / d
  }

  predicate IsBps(v: int) { 0 <= v <= MAX_SAFE_INTEGER }

  /** What planPaidGas demands of its input. */
  predicate GasInputIsValid(i: GasInput) {
    IsBps(i.bufferBps) && IsBps(i.headroomBps) && IsBps(i.dataFeeBps)
    && i.paymentGas > 0 && i.actionGas > 0 && i.calldataGas >= 0 && i.dataFeeGas >= 0
  }

  function BoundedGas(i: GasInput): nat
    requires GasInputIsValid(i)
  {
    i.paymentGas + i.actionGas + ENTRY_POINT_GAS_RESERVE
  }

  function EnvelopeGas(i: GasInput): nat
    requires GasInputIsValid(i)
  {
    TRANSACTION_BASE_GAS + i.calldataGas + CeilDiv(Times(i.dataFeeGas, BPS + i.dataFeeBps), BPS)
  }

  /** A product the verifier need not look into. */
  function Times(a: nat, b: nat): nat { a * b }

  function UnclampedGas(i: GasInput): nat
    requires GasInputIsValid(i)
  {
    CeilDiv(Times(Times(BoundedGas(i) + EnvelopeGas(i), BPS + i.bufferBps), BPS + i.headroomBps), BPS * BPS)
  }

  /** planPaidGas: None where it throws. */
  function PlanPaidGas(i: GasInput): Option<GasPlan> {
    if !GasInputIsValid(i) then None
    else
      var cap := UnclampedGas(i);
      if i.clamp.Some? && i.clamp.value < cap then
        if i.clamp.value < BoundedGas(i) then None
        else Some(GasPlan(BoundedGas(i), EnvelopeGas(i), i.clamp.value))
      else Some(GasPlan(BoundedGas(i), EnvelopeGas(i), cap))
  }

  /** Rounding up stays under m exactly when the number itself does. */
  lemma CeilDivExact(n: nat, d: nat, m: nat)
    requires d > 0
    ensures CeilDiv(n, d) <= m <==> n <= m * d
  {
    var c := CeilDiv(n, d);
    var rest := (n + d - 1) % d;
    assert n + d - 1 == c * d + rest;
    if c <= m { ProductGrows(c, m, d); }
    if c > m { ProductGrows(m + 1, c, d); assert (m + 1) * d == m * d + d; }
  }

  lemma ProductGrows(a: nat, b: nat, d: nat)
    requires a <= b
    ensures a * d <= b * d
  {}

  lemma ProductReorders(a: nat, b: nat, c: nat)
    ensures a * b * c == a * c * b
    ensures a * (b * c) == a * b * c
  {}

  /** The unclamped cap is at least all the gas that is planned for. */
  lemma CapCoversPlan(i: GasInput)
    requires GasInputIsValid(i)
    ensures UnclampedGas(i) >= BoundedGas(i) + EnvelopeGas(i)
  {
    hide EnvelopeGas, BoundedGas, CeilDiv;
    var gas := BoundedGas(i) + EnvelopeGas(i);
    var (x, y) := (BPS + i.bufferBps, BPS + i.headroomBps);
    if gas > 0 {
      CeilDivExact(Times(Times(gas, x), y), BPS * BPS, gas - 1);
      ProductGrows(BPS, x, gas);
      ProductGrows(gas * BPS, gas * x, y);
      ProductGrows(BPS, y, gas * BPS);
      assert gas * BPS * BPS <= gas * x * y;
      assert gas * BPS * BPS > (gas - 1) * (BPS * BPS);
    }
  }

  /** A plan always passes the gas check of the quote request, and planning fails only for invalid input
      or a clamp below what the EntryPoint requires. */
  lemma PlanCoversReserve(i: GasInput)
    ensures PlanPaidGas(i).Some? ==>
      CoversReserve(PlanPaidGas(i).value.maximumGas, i.paymentGas, i.actionGas)
    ensures PlanPaidGas(i).Some? <==>
      GasInputIsValid(i) && (i.clamp.Some? ==> i.clamp.value >= i.paymentGas + i.actionGas + ENTRY_POINT_GAS_RESERVE)
  {
    hide UnclampedGas, EnvelopeGas;
    if GasInputIsValid(i) { CapCoversPlan(i); }
  }

  /** An estimate within the headroom, with the exit's own buffer on top and both rounded up, fits the cap. */
  lemma EstimateFits(i: GasInput, estimate: nat)
    requires GasInputIsValid(i)
    requires Times(estimate, BPS) <= Times(BoundedGas(i) + EnvelopeGas(i), BPS + i.headroomBps)
    ensures CeilDiv(Times(estimate, BPS + i.bufferBps), BPS) <= UnclampedGas(i)
  {
    hide EnvelopeGas, BoundedGas, CeilDiv;
    var gas := BoundedGas(i) + EnvelopeGas(i);
    var (x, y) := (BPS + i.bufferBps, BPS + i.headroomBps);
    var cap := UnclampedGas(i);
    CeilDivExact(Times(Times(gas, x), y), BPS * BPS, cap);
    CeilDivExact(Times(estimate, x), BPS, cap);
    ProductGrows(estimate * BPS, gas * y, x);
    ProductReorders(estimate, BPS, x);
    ProductReorders(gas, y, x);
    ProductReorders(cap, BPS, BPS);
    assert (estimate * x) * BPS <= (cap * BPS) * BPS;
  }

  /** With no clamp, preflight accepts every estimate within the headroom; with any clamp it accepts an
      estimate exactly when buffer and all fit the planned cap. */
  lemma PreflightAccepts(i: GasInput, estimate: nat)
    requires PlanPaidGas(i).Some?
    ensures var plan := PlanPaidGas(i).value;
      && (CeilDiv(Times(estimate, BPS + i.bufferBps), BPS) <= plan.maximumGas
          <==> Times(estimate, BPS + i.bufferBps) <= plan.maximumGas * BPS)
      && ((i.clamp.None? || i.clamp.value >= UnclampedGas(i))
          && Times(estimate, BPS) <= Times(plan.boundedGas + plan.envelopeGas, BPS + i.headroomBps)
          ==> CeilDiv(Times(estimate, BPS + i.bufferBps), BPS) <= plan.maximumGas)
  {
    hide EnvelopeGas, BoundedGas, CeilDiv, Times, UnclampedGas;
    var plan := PlanPaidGas(i).value;
    CeilDivExact(Times(estimate, BPS + i.bufferBps), BPS, plan.maximumGas);
    if Times(estimate, BPS) <= Times(plan.boundedGas + plan.envelopeGas, BPS + i.headroomBps) {
      EstimateFits(i, estimate);
    }
  }

  /* ----- the plan in numbers ----- */

  /** The envelope is the least gas that pays for the transaction, its calldata and the data fee with its headroom. */
  lemma EnvelopeIsLeast(i: GasInput, m: nat)
    requires GasInputIsValid(i)
    ensures EnvelopeGas(i) <= 21_000 + i.calldataGas + m <==> i.dataFeeGas * (10_000 + i.dataFeeBps) <= m * 10_000
  {
    hide CeilDiv;
    CeilDivExact(Times(i.dataFeeGas, BPS + i.dataFeeBps), BPS, m);
  }

  /** The planned cap is the least that holds all limits, the reserve of 250,000 and the envelope with the exit's
      buffer and the headroom on top of each other; a clamp below it takes its place. */
  lemma CapIsLeast(i: GasInput, m: nat)
    requires PlanPaidGas(i).Some?
    ensures var (plan, gas) := (PlanPaidGas(i).value, i.paymentGas + i.actionGas + 250_000 + EnvelopeGas(i));
      && plan.boundedGas == i.paymentGas + i.actionGas + 250_000 && plan.envelopeGas == EnvelopeGas(i)
      && (plan.maximumGas <= m <==>
          (gas * (10_000 + i.bufferBps)) * (10_000 + i.headroomBps) <= m * 100_000_000
          || (i.clamp.Some? && i.clamp.value <= m))
  {
    hide CeilDiv, EnvelopeGas;
    CeilDivExact(Times(Times(BoundedGas(i) + EnvelopeGas(i), BPS + i.bufferBps), BPS + i.headroomBps), BPS * BPS, m);
  }

  /** Plans in numbers: with the default buffers; with one basis point of buffer, rounded up; with a clamp. */
  lemma PlanVectors()
    ensures PlanPaidGas(GasInput(1_400_000, 1_600_000, 480_000, 120_000, 2_000, 500, 5_000, None))
         == Some(GasPlan(3_250_000, 681_000, 4_953_060))
    ensures PlanPaidGas(GasInput(1, 1, 0, 0, 1, 0, 5_000, None)) == Some(GasPlan(250_002, 21_000, 271_030))
    ensures PlanPaidGas(GasInput(1_000_000, 1_000_000, 100_000, 0, 2_000, 500, 5_000, Some(2_400_000)))
         == Some(GasPlan(2_250_000, 121_000, 2_400_000))
    ensures PlanPaidGas(GasInput(1_000_000, 1_000_000, 100_000, 0, 2_000, 500, 5_000, Some(20_000_000)))
         == Some(GasPlan(2_250_000, 121_000, 2_987_460))
    ensures PlanPaidGas(GasInput(1_000_000, 1_000_000, 100_000, 0, 2_000, 500, 5_000, Some(2_249_999))) == None
  {}
}
