/** The bytes on the wire: what each message and each claim batch looks like, field by field, and which malformed batches
    are refused. */
module WireLayout {
  import opened Outcomes
  import opened ByteValues
  import opened WireFormat
  import opened Messages
  import opened Reassembly
  import C = ClaimBatch

  /* ----- numbers and lengths ----- */

  function Low(n: nat): bv8 { ByteOf(n % 256) }

  function Four(n: nat): Bytes { [Low(n), Low(n / 0x100), Low(n / 0x1_0000), Low(n / 0x100_0000)] }

  /** 64 bits, the low half first. */
  function Eight(n: nat): Bytes { Four(n) + Four(n / 0x1_0000_0000) }

  /** A byte string with its length before it. */
  function Long(v: Bytes): Bytes { Eight(|v|) + v }

  function Optional(v: Option<Bytes>): Bytes { if v.None? then [0] else [1] + Long(v.value) }

  function Tag(n: bv8): Bytes { [n, 0, 0, 0] }

  lemma OneByte(n: nat)
    ensures LittleEndian(n, 1) == [Low(n)]
  {
    assert LittleEndian(n / 256, 0) == [];
  }

  lemma TwoBytes(n: nat)
    ensures LittleEndian(n, 2) == [Low(n), Low(n / 0x100)]
  {
    hide ByteOf;
    OneByte(n / 256);
  }

  lemma FourBytes(n: nat)
    ensures LittleEndian(n, 4) == Four(n)
  {
    hide ByteOf;
    TwoBytes(n / 0x1_0000);
    Quotients(n);
    assert LittleEndian(n, 4) == [Low(n)] + LittleEndian(n / 256, 3);
    assert LittleEndian(n / 256, 3) == [Low(n / 256)] + LittleEndian(n / 256 / 256, 2);
  }

  lemma Quotients(n: nat)
    ensures n / 256 / 256 == n / 0x1_0000 && n / 0x1_0000 / 256 == n / 0x100_0000
  {}

  lemma EightBytes(n: nat)
    ensures LittleEndian(n, 8) == Eight(n)
  {
    hide ByteOf;
    FourBytes(n);
    FourBytes(n / 0x1_0000_0000);
    FourThenFour(n, n / 0x1_0000_0000);
  }

  lemma FourThenFour(n: nat, high: nat)
    requires high == n / 0x1_0000_0000
    ensures LittleEndian(n, 8) == LittleEndian(n, 4) + LittleEndian(high, 4)
  {
    hide ByteOf;
    var (a, b, c) := (n / 256, n / 256 / 256, n / 256 / 256 / 256);
    assert c / 256 == high by { Quotients(n); Quotients(n / 0x1_0000); }
    assert LittleEndian(n, 8) == [Low(n)] + LittleEndian(a, 7);
    assert LittleEndian(a, 7) == [Low(a)] + LittleEndian(b, 6);
    assert LittleEndian(b, 6) == [Low(b)] + LittleEndian(c, 5);
    assert LittleEndian(c, 5) == [Low(c)] + LittleEndian(high, 4);
    assert LittleEndian(n, 4) == [Low(n), Low(a), Low(b), Low(c)] by { FourBytes(n); Quotients(n); }
  }

  lemma SmallBytes()
    ensures ByteOf(0) == 0 && ByteOf(1) == 1 && ByteOf(2) == 2 && ByteOf(3) == 3 && ByteOf(4) == 4
    ensures ByteOf(5) == 5 && ByteOf(6) == 6 && ByteOf(7) == 7 && ByteOf(8) == 8
  {
    assert ByteOf(3) == ByteOf(2) + 1;
    assert ByteOf(5) == ByteOf(4) + 1;
    assert ByteOf(7) == ByteOf(6) + 1;
  }

  /* ----- what the writers append ----- */

  lemma Appends(out: Bytes, n: nat, v: Bytes, o: Option<Bytes>)
    ensures PutUint(out, n, 1) == out + [Low(n)] && PutUint(out, n, 2) == out + [Low(n), Low(n / 0x100)]
    ensures PutUint(out, n, 4) == out + Four(n) && PutUint(out, n, 8) == out + Eight(n)
    ensures PutFixed(out, v) == out + v && PutBytes(out, v) == out + Long(v)
    ensures PutOptBytes(out, o) == out + Optional(o)
    ensures PutUint(out, 0, 1) == out + [0] && PutUint(out, 1, 1) == out + [1]
  {
    hide ByteOf, LittleEndian, Four;
    OneByte(n);
    TwoBytes(n);
    FourBytes(n);
    EightBytes(n);
    EightBytes(|v|);
    OneByte(0);
    OneByte(1);
    SmallBytes();
    if o.Some? { EightBytes(|o.value|); }
  }

  lemma AppendsLong(out: Bytes, v: Bytes)
    ensures PutBytes(out, v) == out + Long(v)
  {
    hide LittleEndian, Four;
    EightBytes(|v|);
  }

  lemma ByteSum(a: Bytes, b: Bytes, c: Bytes)
    ensures a + b + c == a + (b + c)
  {}

  lemma AppendsTag(out: Bytes, n: nat, tag: bv8)
    requires n <= 8 && ByteOf(n) == tag
    ensures PutUint(out, n, 4) == out + Tag(tag)
  {
    hide ByteOf, LittleEndian;
    FourBytes(n);
    SmallBytes();
  }

  /* ----- service requests ----- */

  function HeaderBytes(headers: seq<Messages.Header>): Bytes {
    if headers == [] then []
    else
      var last := headers[|headers| - 1];
      HeaderBytes(headers[..|headers| - 1]) + Long(last.0) + Long(last.1)
  }

  lemma {:induction false} AppendsHeaders(out: Bytes, headers: seq<Messages.Header>)
    ensures PutHeaders(out, headers) == out + HeaderBytes(headers)
  {
    hide PutBytes, Long;
    if headers == [] {
      assert out + [] == out;
    } else {
      var (front, last) := (headers[..|headers| - 1], headers[|headers| - 1]);
      AppendsHeaders(out, front);
      AppendsLong(PutHeaders(out, front), last.0);
      AppendsLong(PutHeaders(out, front) + Long(last.0), last.1);
      ByteSum(out, HeaderBytes(front), Long(last.0));
      ByteSum(out, HeaderBytes(front) + Long(last.0), Long(last.1));
    }
  }

  function SurbBytes(surbs: seq<Bytes>): Bytes {
    if surbs == [] then [] else SurbBytes(surbs[..|surbs| - 1]) + surbs[|surbs| - 1]
  }

  lemma {:induction false} AppendsSurbs(out: Bytes, surbs: seq<Bytes>)
    ensures PutSurbs(out, surbs) == out + SurbBytes(surbs)
  {
    if surbs == [] { assert out + [] == out; } else { AppendsSurbs(out, surbs[..|surbs| - 1]); }
  }

  function OpenBytes(open: Option<TunnelOpen>): Bytes {
    match open
    case None => [0]
    case Some(o) => [1] + Long(o.host) + [Low(o.port), Low(o.port / 0x100)]
  }

  /** The wire form of a request: the version byte, the tag of its variant, then its fields. */
  function RequestBytes(r: ServiceRequest): Bytes {
    match r
    case Echo(data) => [1] + Tag(0) + Long(data)
    case HttpRequest(m, url, headers, body) =>
      [1] + Tag(1) + Long(m) + Long(url) + Eight(|headers|) + HeaderBytes(headers) + Long(body)
    case RpcRequest(m, params, id, rpcUrl) => [1] + Tag(2) + Long(m) + Long(params) + Eight(id) + Optional(rpcUrl)
    case SubmitTransaction(to, data) => [1] + Tag(3) + to + Long(data)
    case BroadcastSigned(tx, rpcUrl, rpcMethod) => [1] + Tag(4) + Long(tx) + Optional(rpcUrl) + Optional(rpcMethod)
    case ReplenishSurbs(requestId, surbs) => [1] + Tag(5) + Eight(requestId) + Eight(|surbs|) + SurbBytes(surbs)
    case PaidTransaction(chainId, entryPoint, calldata, executionId, validUntil) =>
      [1] + Tag(6) + Eight(chainId) + entryPoint + Long(calldata) + executionId + Eight(validUntil)
    case PaidQuoteRequest(chainId, entryPoint, intent, adapter, payment, asset, paymentGas, target, hash, actionGas,
                          assets, maximumGas, limit, validUntil) =>
      [1] + Tag(7) + Eight(chainId) + entryPoint + intent + adapter + payment + asset + Eight(paymentGas) + target + hash
      + Eight(actionGas) + assets + Eight(maximumGas) + Four(limit) + Eight(validUntil)
    case Tunnel(id, n, open, ackOffset, data, close, holdMs) =>
      [1] + Tag(8) + id + Four(n) + OpenBytes(open) + Eight(ackOffset) + Long(data) + [if close then 1 else 0] + Four(holdMs)
  }

  lemma QuoteRequestLayout(out: Bytes, r: ServiceRequest)
    requires r.PaidQuoteRequest?
    ensures PutQuoteRequest(out, r)
         == out + Eight(r.chainId) + r.entryPoint + r.clientIntentId + r.paymentAdapter + r.paymentId + r.feeAsset
            + Eight(r.paymentGasLimit) + r.actionTarget + r.actionCalldataHash + Eight(r.actionGasLimit)
            + r.trackedAssetsHash + Eight(r.maximumTransactionGas) + Four(r.returnDataLimit) + Eight(r.validUntilUnix)
  {
    hide LittleEndian, Four, Eight;
    EightBytes(r.chainId);
    EightBytes(r.paymentGasLimit);
    EightBytes(r.actionGasLimit);
    EightBytes(r.maximumTransactionGas);
    FourBytes(r.returnDataLimit);
    EightBytes(r.validUntilUnix);
  }

  lemma OpenLayout(out: Bytes, open: Option<TunnelOpen>)
    ensures PutOpen(out, open) == out + OpenBytes(open)
  {
    hide PutBytes, PutUint, Long, Low;
    Appends(out, 0, [], None);
    if open.Some? {
      Appends(out + [1], 0, open.value.host, None);
      Appends(out + [1] + Long(open.value.host), open.value.port, [], None);
    }
  }

  lemma TunnelLayout(out: Bytes, r: ServiceRequest)
    requires r.Tunnel?
    ensures PutTunnel(out, r)
         == out + r.tunnelId + Four(r.seq_) + OpenBytes(r.open) + Eight(r.ackOffset) + Long(r.data)
            + [if r.close then 1 else 0] + Four(r.holdMs)
  {
    hide PutBytes, PutUint, PutFixed, PutOpen, Long, Four, Eight, OpenBytes;
    Appends(out, 0, r.tunnelId, None);
    var o1 := out + r.tunnelId;
    Appends(o1, r.seq_, [], None);
    var o2 := o1 + Four(r.seq_);
    OpenLayout(o2, r.open);
    var o3 := o2 + OpenBytes(r.open);
    Appends(o3, r.ackOffset, [], None);
    var o4 := o3 + Eight(r.ackOffset);
    Appends(o4, 0, r.data, None);
    var o5 := o4 + Long(r.data);
    Appends(o5, 0, [], None);
    Appends(o5 + [if r.close then 1 else 0], r.holdMs, [], None);
  }

  /** Every request is its version byte, the tag of its variant and its fields in this order; integers have their low
      byte first. */
  lemma RequestLayout(r: ServiceRequest)
    ensures EncodedRequest(r) == RequestBytes(r)
  {
    hide PutBytes, PutUint, PutFixed, PutOptBytes, PutHeaders, PutSurbs, PutTunnel, PutQuoteRequest;
    hide Long, Four, Eight, Optional, Tag, HeaderBytes, SurbBytes, OpenBytes, ByteOf;
    SmallBytes();
    Appends([], 0, [], None);
    assert PutUint([], PAYLOAD_VERSION, 1) == [1];
    match r {
      case Echo(data) =>
        AppendsTag([1], 0, 0);
        Appends([1] + Tag(0), 0, data, None);
      case HttpRequest(m, url, headers, body) => HttpLayout(r);
      case RpcRequest(m, params, id, rpcUrl) =>
        AppendsTag([1], 2, 2);
        Appends([1] + Tag(2), 0, m, None);
        Appends([1] + Tag(2) + Long(m), 0, params, None);
        Appends([1] + Tag(2) + Long(m) + Long(params), id, [], None);
        Appends([1] + Tag(2) + Long(m) + Long(params) + Eight(id), 0, [], rpcUrl);
      case SubmitTransaction(to, data) =>
        AppendsTag([1], 3, 3);
        Appends([1] + Tag(3), 0, to, None);
        Appends([1] + Tag(3) + to, 0, data, None);
      case BroadcastSigned(tx, rpcUrl, rpcMethod) =>
        AppendsTag([1], 4, 4);
        Appends([1] + Tag(4), 0, tx, None);
        Appends([1] + Tag(4) + Long(tx), 0, [], rpcUrl);
        Appends([1] + Tag(4) + Long(tx) + Optional(rpcUrl), 0, [], rpcMethod);
      case ReplenishSurbs(requestId, surbs) =>
        AppendsTag([1], 5, 5);
        Appends([1] + Tag(5), requestId, [], None);
        Appends([1] + Tag(5) + Eight(requestId), |surbs|, [], None);
        AppendsSurbs([1] + Tag(5) + Eight(requestId) + Eight(|surbs|), surbs);
      case PaidTransaction(chainId, entryPoint, calldata, executionId, validUntil) => PaidLayout(r);
      case PaidQuoteRequest(_, _, _, _, _, _, _, _, _, _, _, _, _, _) =>
        AppendsTag([1], 7, 7);
        QuoteRequestLayout([1] + Tag(7), r);
      case Tunnel(_, _, _, _, _, _, _) =>
        AppendsTag([1], 8, 8);
        TunnelLayout([1] + Tag(8), r);
    }
  }

  lemma HttpLayout(r: ServiceRequest)
    requires r.HttpRequest?
    ensures PutRequest([1], r) == RequestBytes(r)
  {
    hide PutBytes, PutUint, PutHeaders, Long, Eight, Tag, HeaderBytes, ByteOf;
    SmallBytes();
    AppendsTag([1], 1, 1);
    var o1 := [1] + Tag(1);
    Appends(o1, 0, r.method_, None);
    var o2 := o1 + Long(r.method_);
    Appends(o2, 0, r.url, None);
    var o3 := o2 + Long(r.url);
    Appends(o3, |r.headers|, [], None);
    var o4 := o3 + Eight(|r.headers|);
    AppendsHeaders(o4, r.headers);
    Appends(o4 + HeaderBytes(r.headers), 0, r.body, None);
  }

  lemma PaidLayout(r: ServiceRequest)
    requires r.PaidTransaction?
    ensures PutRequest([1], r) == RequestBytes(r)
  {
    hide PutBytes, PutUint, PutFixed, Long, Eight, Tag, ByteOf;
    SmallBytes();
    AppendsTag([1], 6, 6);
    var o1 := [1] + Tag(6);
    Appends(o1, r.chainId, [], None);
    var o2 := o1 + Eight(r.chainId);
    Appends(o2, 0, r.entryPoint, None);
    var o3 := o2 + r.entryPoint;
    Appends(o3, 0, r.calldata, None);
    var o4 := o3 + Long(r.calldata);
    Appends(o4, 0, r.executionId, None);
    Appends(o4 + r.executionId, r.validUntilUnix, [], None);
  }

  /* ----- relayer payloads ----- */

  function FragmentBytes(f: Fragment): Bytes {
    Eight(f.messageId) + Four(f.totalFragments) + Four(f.sequence) + Long(f.data)
    + if f.fec.None? then [0] else [1] + Four(f.fec.value.dataShardCount) + Eight(f.fec.value.originalDataLen)
  }

  lemma FragmentLayout(out: Bytes, f: Fragment)
    ensures PutFragment(out, f) == out + FragmentBytes(f)
  {
    hide PutBytes, PutUint, Long, Four, Eight;
    Appends(out, f.messageId, [], None);
    var o1 := out + Eight(f.messageId);
    Appends(o1, f.totalFragments, [], None);
    var o2 := o1 + Four(f.totalFragments);
    Appends(o2, f.sequence, [], None);
    var o3 := o2 + Four(f.sequence);
    Appends(o3, 0, f.data, None);
    var o4 := o3 + Long(f.data);
    Appends(o4, 0, [], None);
    if f.fec.Some? {
      Appends(o4 + [1], f.fec.value.dataShardCount, [], None);
      Appends(o4 + [1] + Four(f.fec.value.dataShardCount), f.fec.value.originalDataLen, [], None);
    }
  }

  function PayloadBytes(p: RelayerPayload): Bytes {
    match p
    case RelayTransaction(to, data) => [1] + Tag(0) + to + Long(data)
    case Dummy(padding) => [1] + Tag(1) + Long(padding)
    case Heartbeat(id, timestamp) => [1] + Tag(2) + Eight(id) + Eight(timestamp)
    case FragmentPayload(frag) => [1] + Tag(3) + FragmentBytes(frag)
    case AnonymousRequest(inner, surbs) => [1] + Tag(4) + Long(inner) + Eight(|surbs|) + SurbBytes(surbs)
    case ServiceResponse(requestId, fragment) => [1] + Tag(5) + Eight(requestId) + FragmentBytes(fragment)
    case NeedMoreSurbs(requestId, remaining) => [1] + Tag(6) + Eight(requestId) + Four(remaining)
  }

  /** The same for payloads. */
  lemma PayloadLayout(p: RelayerPayload)
    ensures EncodedPayload(p) == PayloadBytes(p)
  {
    hide PutBytes, PutUint, PutFixed, PutSurbs, PutFragment, Long, Four, Eight, Tag, SurbBytes, FragmentBytes, ByteOf;
    SmallBytes();
    Appends([], 0, [], None);
    assert PutUint([], PAYLOAD_VERSION, 1) == [1];
    match p {
      case RelayTransaction(to, data) =>
        AppendsTag([1], 0, 0);
        Appends([1] + Tag(0), 0, to, None);
        Appends([1] + Tag(0) + to, 0, data, None);
      case Dummy(padding) =>
        AppendsTag([1], 1, 1);
        Appends([1] + Tag(1), 0, padding, None);
      case Heartbeat(id, timestamp) =>
        AppendsTag([1], 2, 2);
        Appends([1] + Tag(2), id, [], None);
        Appends([1] + Tag(2) + Eight(id), timestamp, [], None);
      case FragmentPayload(frag) =>
        AppendsTag([1], 3, 3);
        FragmentLayout([1] + Tag(3), frag);
      case AnonymousRequest(inner, surbs) =>
        AppendsTag([1], 4, 4);
        Appends([1] + Tag(4), 0, inner, None);
        Appends([1] + Tag(4) + Long(inner), |surbs|, [], None);
        AppendsSurbs([1] + Tag(4) + Long(inner) + Eight(|surbs|), surbs);
      case ServiceResponse(requestId, fragment) =>
        AppendsTag([1], 5, 5);
        Appends([1] + Tag(5), requestId, [], None);
        FragmentLayout([1] + Tag(5) + Eight(requestId), fragment);
      case NeedMoreSurbs(requestId, remaining) =>
        AppendsTag([1], 6, 6);
        Appends([1] + Tag(6), requestId, [], None);
        Appends([1] + Tag(6) + Eight(requestId), remaining, [], None);
    }
  }

  /** A transaction of three bytes for some address, byte for byte. */
  lemma TransactionVector(to: Bytes)
    requires |to| == 20
    ensures EncodedRequest(SubmitTransaction(to, [1, 2, 3])) == [1, 3, 0, 0, 0] + to + [3, 0, 0, 0, 0, 0, 0, 0, 1, 2, 3]
  {
    hide ByteOf, EncodedRequest, Long, Tag;
    RequestLayout(SubmitTransaction(to, [1, 2, 3]));
    ThreeBytes();
    assert [1] + Tag(3) == [1, 3, 0, 0, 0] by { TagOfThree(); }
  }

  lemma TagOfThree()
    ensures Tag(3) == [3, 0, 0, 0]
  {}

  lemma ThreeBytes()
    ensures Long([1, 2, 3]) == [3, 0, 0, 0, 0, 0, 0, 0, 1, 2, 3]
  {
    hide ByteOf;
    SmallBytes();
  }

  /** Which requests the writer refuses, by the sizes their fields have on the wire: addresses of 20 bytes, hashes and
      ids of 32, tunnel ids of 16; and a tunnel is opened by its message 0 and by no other. */
  lemma RefusesWrongSizes(r: ServiceRequest)
    ensures r.SubmitTransaction? ==> (RequestRefused(r) <==> |r.to| != 20)
    ensures r.PaidTransaction? ==> (RequestRefused(r) <==> |r.entryPoint| != 20 || |r.executionId| != 32)
    ensures r.Tunnel? ==> (RequestRefused(r) <==> |r.tunnelId| != 16 || (r.seq_ == 0 && r.open == None) || (r.seq_ > 0 && r.open != None))
    ensures r.PaidQuoteRequest? ==>
      (!RequestRefused(r) <==>
       [|r.entryPoint|, |r.clientIntentId|, |r.paymentAdapter|, |r.paymentId|, |r.feeAsset|, |r.actionTarget|,
        |r.actionCalldataHash|, |r.trackedAssetsHash|] == [20, 32, 20, 32, 20, 20, 32, 32])
    ensures r.Echo? || r.HttpRequest? || r.RpcRequest? || r.BroadcastSigned? || r.ReplenishSurbs? ==> !RequestRefused(r)
  {
    if r.PaidQuoteRequest? {
      var sizes := [|r.entryPoint|, |r.clientIntentId|, |r.paymentAdapter|, |r.paymentId|, |r.feeAsset|, |r.actionTarget|,
                    |r.actionCalldataHash|, |r.trackedAssetsHash|];
      assert sizes[0] == |r.entryPoint| && sizes[1] == |r.clientIntentId| && sizes[2] == |r.paymentAdapter|;
      assert sizes[3] == |r.paymentId| && sizes[4] == |r.feeAsset| && sizes[5] == |r.actionTarget|;
      assert sizes[6] == |r.actionCalldataHash| && sizes[7] == |r.trackedAssetsHash|;
    }
  }

  /* ----- claim batches ----- */

  /** Big-endian. */
  function BigTwo(n: nat): Bytes { [Low(n / 0x100), Low(n)] }

  function BigFour(n: nat): Bytes { BigTwo(n / 0x1_0000) + BigTwo(n) }

  function ItemBytes(item: C.ClaimedItem): Bytes {
    [if item.reclaimed then 1 else 0] + BigTwo(|item.id|) + item.id + BigFour(|item.data|) + item.data
  }

  function AllItems(items: seq<C.ClaimedItem>): Bytes {
    if items == [] then [] else AllItems(items[..|items| - 1]) + ItemBytes(items[|items| - 1])
  }

  lemma BigOneByte(n: nat)
    ensures C.BigEndian(n, 1) == [Low(n)]
  {
    assert C.BigEndian(n / 256, 0) == [];
  }

  lemma BigTwoBytes(n: nat)
    ensures C.BigEndian(n, 2) == BigTwo(n)
  {
    hide ByteOf;
    BigOneByte(n / 256);
  }

  lemma BigBytes(n: nat)
    ensures C.BigEndian(n, 2) == BigTwo(n) && C.BigEndian(n, 4) == BigFour(n)
  {
    hide ByteOf;
    BigTwoBytes(n);
    BigTwoBytes(n / 0x1_0000);
    Quotients(n);
    BigLastTwo(n, n / 256, n / 0x1_0000);
  }

  lemma BigLastTwo(n: nat, a: nat, b: nat)
    requires a == n / 256 && b == a / 256
    ensures C.BigEndian(n, 4) == C.BigEndian(b, 2) + [Low(a), Low(n)]
  {
    hide ByteOf;
    assert C.BigEndian(n, 4) == C.BigEndian(a, 3) + [Low(n)];
    assert C.BigEndian(a, 3) == C.BigEndian(b, 2) + [Low(a)];
  }

  lemma ItemLayout(out: Bytes, item: C.ClaimedItem)
    ensures C.PutItem(out, item) == out + ItemBytes(item)
  {
    hide ByteOf, C.BigEndian, BigFour, BigTwo;
    SmallBytes();
    BigOneByte(C.FlagOf(item));
    BigBytes(|item.id|);
    BigBytes(|item.data|);
  }

  lemma {:induction false} ItemsLayout(out: Bytes, items: seq<C.ClaimedItem>)
    ensures C.PutItems(out, items) == out + AllItems(items)
  {
    hide C.PutItem, ItemBytes;
    if items == [] {
      assert out + [] == out;
    } else {
      ItemsLayout(out, items[..|items| - 1]);
      ItemLayout(C.PutItems(out, items[..|items| - 1]), items[|items| - 1]);
    }
  }

  /** A batch is its version, the number of items and the items, each with flag, id and data, high bytes first. */
  lemma BatchLayout(items: seq<C.ClaimedItem>)
    ensures C.Encoded(items) == [1] + BigTwo(|items|) + AllItems(items)
  {
    hide C.PutItems, C.Header, AllItems, BigTwo;
    HeaderLayout(|items|);
    ItemsLayout(C.Header(|items|), items);
  }

  lemma HeaderLayout(count: nat)
    ensures C.Header(count) == [1] + BigTwo(count)
  {
    hide ByteOf, C.BigEndian, BigTwo;
    SmallBytes();
    BigOneByte(1);
    BigBytes(count);
    assert Low(1) == 1;
  }

  /** Two items, byte for byte, and none. */
  lemma BatchVectors()
    ensures C.Encoded([C.ClaimedItem([97, 98], [1, 2, 3], false), C.ClaimedItem([99], [], true)])
         == [1, 0, 2, 0, 0, 2, 97, 98, 0, 0, 0, 3, 1, 2, 3, 1, 0, 1, 99, 0, 0, 0, 0]
    ensures C.Encoded([]) == [1, 0, 0]
  {
    hide C.Encoded, BigTwo, ItemBytes;
    var (a, b) := (C.ClaimedItem([97, 98], [1, 2, 3], false), C.ClaimedItem([99], [], true));
    BatchLayout([a, b]);
    BatchLayout([]);
    hide AllItems;
    TwoItems(a, b);
    FirstItemVector();
    SecondItemVector();
    SmallCounts();
  }

  lemma TwoItems(a: C.ClaimedItem, b: C.ClaimedItem)
    ensures AllItems([a, b]) == ItemBytes(a) + ItemBytes(b) && AllItems([]) == []
  {
    hide ItemBytes;
    assert [a, b][..1] == [a] && [a][..0] == [];
    assert AllItems([a]) == AllItems([]) + ItemBytes(a) == ItemBytes(a);
  }

  lemma SmallCounts()
    ensures BigTwo(0) == [0, 0] && BigTwo(1) == [0, 1] && BigTwo(2) == [0, 2] && BigTwo(3) == [0, 3]
  {
    hide ByteOf;
    SmallBytes();
  }

  lemma FirstItemVector()
    ensures ItemBytes(C.ClaimedItem([97, 98], [1, 2, 3], false)) == [0, 0, 2, 97, 98, 0, 0, 0, 3, 1, 2, 3]
  {
    hide BigTwo;
    SmallCounts();
  }

  lemma SecondItemVector()
    ensures ItemBytes(C.ClaimedItem([99], [], true)) == [1, 0, 1, 99, 0, 0, 0, 0]
  {
    hide BigTwo;
    SmallCounts();
  }

  /* ----- what a reader of batches refuses ----- */

  lemma ItemGoesOn(body: Bytes, more: Bytes, pos: nat)
    requires C.TakeItem(body, pos).Taken?
    ensures C.TakeItem(body + more, pos) == C.TakeItem(body, pos) && C.TakeItem(body, pos).next <= |body|
  {
    hide C.FromBigEndian, C.Printable;
    var whole := body + more;
    assert whole[pos..pos + 1] == body[pos..pos + 1] && whole[pos + 1..pos + 3] == body[pos + 1..pos + 3];
    var idLength := C.FromBigEndian(body[pos + 1..pos + 3]);
    assert whole[pos + 3..pos + 3 + idLength] == body[pos + 3..pos + 3 + idLength];
    var at := pos + 3 + idLength;
    assert whole[at..at + 4] == body[at..at + 4];
    var dataLength := C.FromBigEndian(body[at..at + 4]);
    assert whole[at + 4..at + 4 + dataLength] == body[at + 4..at + 4 + dataLength];
  }

  lemma {:induction false} ItemsGoOn(body: Bytes, more: Bytes, pos: nat, count: nat)
    requires C.TakeItems(body, pos, count).Taken? && pos <= |body|
    ensures C.TakeItems(body + more, pos, count) == C.TakeItems(body, pos, count)
    ensures C.TakeItems(body, pos, count).next <= |body|
  {
    hide C.TakeItem;
    if count > 0 {
      ItemsGoOn(body, more, pos, count - 1);
      ItemGoesOn(body, more, C.TakeItems(body, pos, count - 1).next);
    }
  }

  /** What is accepted is accepted with nothing behind it only. */
  lemma AcceptedIsWhole(body: Bytes, more: Bytes)
    requires C.Decoded(body).Ok? && more != []
    ensures C.Decoded(body + more) == Err(C.BytesAfterLastItem)
  {
    hide C.FromBigEndian, C.TakeItems;
    assert (body + more)[..1] == body[..1] && (body + more)[1..3] == body[1..3];
    ItemsGoOn(body, more, 3, C.FromBigEndian(body[1..3]));
  }

  /** A batch cut short or with bytes behind it is refused, and so is another version. */
  lemma BrokenBatchesAreRefused(items: seq<C.ClaimedItem>, k: nat, more: Bytes)
    requires |items| < 0x1_0000 && forall i :: 0 <= i < |items| ==> C.Carriable(items[i])
    ensures k < |C.Encoded(items)| ==> C.Decoded(C.Encoded(items)[..k]).Err?
    ensures more != [] ==> C.Decoded(C.Encoded(items) + more) == Err(C.BytesAfterLastItem)
  {
    hide C.Decoded, C.Encoded, C.Carriable;
    var body := C.Encoded(items);
    C.BatchRoundTrip(items);
    if more != [] { AcceptedIsWhole(body, more); }
    if k < |body| && C.Decoded(body[..k]).Ok? {
      assert body == body[..k] + body[k..];
      AcceptedIsWhole(body[..k], body[k..]);
      assert false;
    }
  }

  lemma OtherVersionsAreRefused(body: Bytes)
    ensures |body| < 3 ==> C.Decoded(body) == Err(C.Truncated)
    ensures |body| >= 3 && body[0] != 1 ==> C.Decoded(body) == Err(C.UnknownVersion)
  {
    if |body| >= 3 {
      var v := body[..1];
      assert v[..0] == [] && v[|v| - 1] == body[0];
      assert C.FromBigEndian([]) == 0;
      assert C.FromBigEndian(v) == ValueOf(body[0]);
    }
  }

  /** An item without an id, or with one that is not printable ASCII, makes the whole batch unreadable. */
  lemma BadIdsAreRefused(items: seq<C.ClaimedItem>, k: nat)
    requires k < |items| < 0x1_0000 && forall i :: 0 <= i < k ==> C.Carriable(items[i])
    requires |items[k].id| < 0x1_0000
    requires items[k].id == [] || exists b :: b in items[k].id && !(32 <= ValueOf(b) <= 126)
    ensures C.Decoded(C.Encoded(items)) == Err(if items[k].id == [] then C.EmptyId else C.UnprintableId)
  {
    hide C.PutItem, C.TakeItem, C.PutBig, C.TakeBig, C.Carriable, C.PutItems, C.TakeItems, C.Header, ValueOf, Pow256;
    Widths();
    var body := C.Encoded(items);
    var out := C.PutItems(C.Header(|items|), items[..k]);
    PrefixIsWritten(C.Header(|items|), items, k);
    C.ItemsBack(body, C.Header(|items|), items[..k]);
    BadItem(body, out, items[k]);
    assert C.TakeItems(body, 3, k) == C.Taken(items[..k], |out|) by { HeaderIsThree(|items|); }
    FailsAt(body, k);
    C.FailuresPersist(body, 3, k + 1, |items|);
    HeaderBack(items);
  }

  lemma FailsAt(body: Bytes, k: nat)
    requires C.TakeItems(body, 3, k).Taken? && C.TakeItem(body, C.TakeItems(body, 3, k).next).Failed?
    ensures C.TakeItems(body, 3, k + 1) == C.Failed(C.TakeItem(body, C.TakeItems(body, 3, k).next).why)
  {
    hide C.TakeItem;
  }

  lemma HeaderIsThree(count: nat)
    ensures |C.Header(count)| == 3
  {}

  lemma {:induction false} PrefixIsWritten(out: Bytes, items: seq<C.ClaimedItem>, k: nat)
    requires k < |items|
    ensures C.PutItem(C.PutItems(out, items[..k]), items[k]) <= C.PutItems(out, items)
    ensures C.PutItems(out, items[..k]) <= C.PutItems(out, items)
    decreases |items|
  {
    hide C.PutItem;
    var n := |items| - 1;
    ItemGrows(C.PutItems(out, items[..n]), items[n]);
    if k < n {
      PrefixIsWritten(out, items[..n], k);
      assert items[..n][..k] == items[..k];
    }
  }

  lemma ItemGrows(out: Bytes, item: C.ClaimedItem)
    ensures out <= C.PutItem(out, item)
  {}

  lemma HeaderBack(items: seq<C.ClaimedItem>)
    requires |items| < 0x1_0000
    ensures var body := C.Encoded(items);
      |body| >= 3 && C.FromBigEndian(body[..1]) == 1 && C.FromBigEndian(body[1..3]) == |items|
  {
    hide C.PutItems, C.PutBig, C.TakeBig, Pow256;
    Widths();
    var body := C.Encoded(items);
    ItemsLayout(C.Header(|items|), items);
    var o1 := C.PutBig([], C.CLAIM_BATCH_VERSION, 1);
    C.BigBack(body, o1, |items|, 2);
    C.BigBack(body, [], C.CLAIM_BATCH_VERSION, 1);
    C.PutBigLength([], C.CLAIM_BATCH_VERSION, 1);
    C.PutBigLength(o1, |items|, 2);
    C.TakeBigIs(body, 0, 1);
    C.TakeBigIs(body, 1, 2);
    assert body[0..1] == body[..1];
  }

  lemma BadItem(body: Bytes, out: Bytes, item: C.ClaimedItem)
    requires C.PutItem(out, item) <= body && |item.id| < 0x1_0000
    requires item.id == [] || exists b :: b in item.id && !(32 <= ValueOf(b) <= 126)
    ensures C.TakeItem(body, |out|) == C.Failed(if item.id == [] then C.EmptyId else C.UnprintableId)
  {
    hide C.PutBig, PutFixed, C.TakeBig, C.TakeFixed, Pow256, ValueOf;
    Widths();
    var o1 := C.PutBig(out, C.FlagOf(item), 1);
    var o2 := C.PutBig(o1, |item.id|, 2);
    var o3 := PutFixed(o2, item.id);
    PutsGrow(o3, |item.data|, item.data);
    C.FixedTaken(body, o2, item.id);
    C.BigBack(body, o1, |item.id|, 2);
    C.BigBack(body, out, C.FlagOf(item), 1);
    C.PutBigLength(out, C.FlagOf(item), 1);
    C.PutBigLength(o1, |item.id|, 2);
  }

  lemma PutsGrow(out: Bytes, n: nat, v: Bytes)
    ensures out <= PutFixed(C.PutBig(out, n, 4), v)
  {}

  /** Another version or an unknown tag, and nothing is read. */
  lemma UnknownMessagesAreRefused(n: nat, rest: Bytes)
    requires n < 0x1_0000_0000
    ensures n >= 9 ==> DecodedRequest([1] + Four(n) + rest) == Bad(UnknownVariant)
    ensures n >= 7 ==> DecodedPayload([1] + Four(n) + rest) == Bad(UnknownVariant)
    ensures rest != [] && rest[0] != 1 ==> DecodedRequest(rest) == Bad(BadVersion) && DecodedPayload(rest) == Bad(BadVersion)
  {
    hide PutUint, GetUint, Pow256, Four, ByteOf, GetQuoteRequest, GetTunnel, GetFragment, GetHeaders, GetBytes, GetFixed;
    Widths();
    var buf := [1] + Four(n) + rest;
    Appends([1], n, [], None);
    Appends([], 0, [], None);
    UintBack(buf, [1], n, 4);
    UintBack(buf, [], 1, 1);
    if rest != [] { FirstByte(rest); }
  }

  lemma FirstByte(buf: Bytes)
    requires buf != []
    ensures GetUint(buf, 0, 1) == Got(ValueOf(buf[0]), 1) && (ValueOf(buf[0]) == 1 <==> buf[0] == 1)
  {
    var v := buf[0..1];
    assert v[0] == buf[0] && v[1..] == [];
    assert FromLittleEndian(v) == ValueOf(v[0]) + 256 * FromLittleEndian([]);
  }
}
