/** The wire messages of the client and their encodings. Text fields are byte sequences. */
module Messages {
  import opened Outcomes
  import opened ByteValues
  import opened WireFormat
  import opened Reassembly

  const PAYLOAD_VERSION: nat := 1

  datatype RelayerPayload =
    | RelayTransaction(to: Bytes, data: Bytes)
    | Dummy(padding: Bytes)
    | Heartbeat(id: nat, timestamp: nat)
    | FragmentPayload(frag: Fragment)
    | AnonymousRequest(inner: Bytes, replySurbs: seq<Bytes>)
    | ServiceResponse(requestId: nat, fragment: Fragment)
    | NeedMoreSurbs(requestId: nat, fragmentsRemaining: nat)

  datatype TunnelOpen = TunnelOpen(host: Bytes, port: nat)

  type Header = (Bytes, Bytes)

  datatype ServiceRequest =
    | Echo(data: Bytes)
    | HttpRequest(method_: Bytes, url: Bytes, headers: seq<Header>, body: Bytes)
    | RpcRequest(method_: Bytes, params: Bytes, id: nat, rpcUrl: Option<Bytes>)
    | SubmitTransaction(to: Bytes, data: Bytes)
    | BroadcastSigned(signedTx: Bytes, rpcUrl: Option<Bytes>, rpcMethod: Option<Bytes>)
    | ReplenishSurbs(requestId: nat, surbs: seq<Bytes>)
    | PaidTransaction(chainId: nat, entryPoint: Bytes, calldata: Bytes, executionId: Bytes, validUntilUnix: nat)
    | PaidQuoteRequest(
        chainId: nat, entryPoint: Bytes, clientIntentId: Bytes, paymentAdapter: Bytes, paymentId: Bytes,
        feeAsset: Bytes, paymentGasLimit: nat, actionTarget: Bytes, actionCalldataHash: Bytes,
        actionGasLimit: nat, trackedAssetsHash: Bytes, maximumTransactionGas: nat, returnDataLimit: nat,
        validUntilUnix: nat)
    | Tunnel(tunnelId: Bytes, seq_: nat, open: Option<TunnelOpen>, ackOffset: nat, data: Bytes,
        close: bool, holdMs: nat)

  predicate U16(n: nat) { n < 0x1_0000 }
  predicate U32(n: nat) { n < 0x1_0000_0000 }
  predicate U64(n: nat) { n < 0x1_0000_0000_0000_0000 }

  /* ----- fragments ----- */

  function PutFragment(out: Bytes, f: Fragment): Bytes {
    var out := PutUint(out, f.messageId, 8);
    var out := PutUint(out, f.totalFragments, 4);
    var out := PutUint(out, f.sequence, 4);
    var out := PutBytes(out, f.data);
    if f.fec.None? then PutUint(out, 0, 1)
    else
      var out := PutUint(out, 1, 1);
      var out := PutUint(out, f.fec.value.dataShardCount, 4);
      PutUint(out, f.fec.value.originalDataLen, 8)
  }

  function GetFragment(buf: Bytes, pos: nat): Read<Fragment> {
    var (messageId, pos) :- GetUint(buf, pos, 8);
    var (totalFragments, pos) :- GetUint(buf, pos, 4);
    var (sequence, pos) :- GetUint(buf, pos, 4);
    var (data, pos) :- GetBytes(buf, pos);
    var (tag, pos) :- GetUint(buf, pos, 1);
    if tag != 1 then Got(Fragment(messageId, totalFragments, sequence, data, None), pos)
    else
      var (count, pos) :- GetUint(buf, pos, 4);
      var (len, pos) :- GetUint(buf, pos, 8);
      Got(Fragment(messageId, totalFragments, sequence, data, Some(Fec(count, NumberOf(len)))), pos)
  }

  predicate WritableFragment(f: Fragment) {
    && U64(f.messageId) && U32(f.totalFragments) && U32(f.sequence) && Holdable(f.data)
    && (f.fec.Some? ==> && U32(f.fec.value.dataShardCount) && U64(f.fec.value.originalDataLen)
                        && NumberOf(f.fec.value.originalDataLen) == f.fec.value.originalDataLen)
  }

  lemma FragmentBack(buf: Bytes, out: Bytes, f: Fragment)
    requires PutFragment(out, f) <= buf && WritableFragment(f)
    ensures out <= buf && GetFragment(buf, |out|) == Got(f, |PutFragment(out, f)|)
  {
    hide PutUint, PutBytes, GetUint, GetBytes, Pow256, NumberOf;
    Widths();
    var o1 := PutUint(out, f.messageId, 8);
    var o2 := PutUint(o1, f.totalFragments, 4);
    var o3 := PutUint(o2, f.sequence, 4);
    var o4 := PutBytes(o3, f.data);
    if f.fec.None? {
      UintBack(buf, o4, 0, 1);
    } else {
      var o5 := PutUint(o4, 1, 1);
      var o6 := PutUint(o5, f.fec.value.dataShardCount, 4);
      UintBack(buf, o6, f.fec.value.originalDataLen, 8);
      UintBack(buf, o5, f.fec.value.dataShardCount, 4);
      UintBack(buf, o4, 1, 1);
    }
    BytesBack(buf, o3, f.data);
    UintBack(buf, o2, f.sequence, 4);
    UintBack(buf, o1, f.totalFragments, 4);
    UintBack(buf, out, f.messageId, 8);
  }

  /* ----- relayer payloads ----- */

  function PutSurbs(out: Bytes, surbs: seq<Bytes>): Bytes {
    if surbs == [] then out else PutFixed(PutSurbs(out, surbs[..|surbs| - 1]), surbs[|surbs| - 1])
  }

  predicate PayloadRefused(p: RelayerPayload) { p.RelayTransaction? && |p.to| != 20 }

  function PutPayload(out: Bytes, p: RelayerPayload): Bytes {
    match p
    case RelayTransaction(to, data) => PutBytes(PutFixed(PutUint(out, 0, 4), to), data)
    case Dummy(padding) => PutBytes(PutUint(out, 1, 4), padding)
    case Heartbeat(id, timestamp) => PutUint(PutUint(PutUint(out, 2, 4), id, 8), timestamp, 8)
    case FragmentPayload(frag) => PutFragment(PutUint(out, 3, 4), frag)
    case AnonymousRequest(inner, surbs) =>
      PutSurbs(PutUint(PutBytes(PutUint(out, 4, 4), inner), |surbs|, 8), surbs)
    case ServiceResponse(requestId, fragment) => PutFragment(PutUint(PutUint(out, 5, 4), requestId, 8), fragment)
    case NeedMoreSurbs(requestId, remaining) =>
      PutUint(PutUint(PutUint(out, 6, 4), requestId, 8), remaining, 4)
  }

  function GetPayload(buf: Bytes, pos: nat): Read<RelayerPayload> {
    var (variant, pos) :- GetUint(buf, pos, 4);
    match variant
    case 0 =>
      var (to, pos) :- GetFixed(buf, pos, 20);
      var (data, pos) :- GetBytes(buf, pos);
      Got(RelayTransaction(to, data), pos)
    case 1 =>
      var (padding, pos) :- GetBytes(buf, pos);
      Got(Dummy(padding), pos)
    case 2 =>
      var (id, pos) :- GetUint(buf, pos, 8);
      var (timestamp, pos) :- GetUint(buf, pos, 8);
      Got(Heartbeat(id, timestamp), pos)
    case 3 =>
      var (frag, pos) :- GetFragment(buf, pos);
      Got(FragmentPayload(frag), pos)
    case 4 =>
      var (inner, pos) :- GetBytes(buf, pos);
      var (count, pos) :- GetUint(buf, pos, 8);
      if NumberOf(count) > 0 then Bad(InlineSurbs) else Got(AnonymousRequest(inner, []), pos)
    case 5 =>
      var (requestId, pos) :- GetUint(buf, pos, 8);
      var (fragment, pos) :- GetFragment(buf, pos);
      Got(ServiceResponse(requestId, fragment), pos)
    case 6 =>
      var (requestId, pos) :- GetUint(buf, pos, 8);
      var (remaining, pos) :- GetUint(buf, pos, 4);
      Got(NeedMoreSurbs(requestId, remaining), pos)
    case _ => Bad(UnknownVariant)
  }

  predicate WritablePayload(p: RelayerPayload) {
    match p
    case RelayTransaction(to, data) => |to| == 20 && Holdable(data)
    case Dummy(padding) => Holdable(padding)
    case Heartbeat(id, timestamp) => U64(id) && U64(timestamp)
    case FragmentPayload(frag) => WritableFragment(frag)
    case AnonymousRequest(inner, surbs) => Holdable(inner) && surbs == []
    case ServiceResponse(requestId, fragment) => U64(requestId) && WritableFragment(fragment)
    case NeedMoreSurbs(requestId, remaining) => U64(requestId) && U32(remaining)
  }

  lemma PayloadBack(buf: Bytes, out: Bytes, p: RelayerPayload)
    requires PutPayload(out, p) <= buf && WritablePayload(p)
    ensures out <= buf && GetPayload(buf, |out|) == Got(p, |PutPayload(out, p)|)
  {
    hide PutUint, PutBytes, PutFixed, PutFragment, GetUint, GetBytes, GetFixed, GetFragment, Pow256;
    Widths();
    match p {
      case RelayTransaction(to, data) =>
        BytesBack(buf, PutFixed(PutUint(out, 0, 4), to), data);
        FixedBack(buf, PutUint(out, 0, 4), to);
        UintBack(buf, out, 0, 4);
      case Dummy(padding) =>
        BytesBack(buf, PutUint(out, 1, 4), padding);
        UintBack(buf, out, 1, 4);
      case Heartbeat(id, timestamp) =>
        UintBack(buf, PutUint(PutUint(out, 2, 4), id, 8), timestamp, 8);
        UintBack(buf, PutUint(out, 2, 4), id, 8);
        UintBack(buf, out, 2, 4);
      case FragmentPayload(frag) =>
        FragmentBack(buf, PutUint(out, 3, 4), frag);
        UintBack(buf, out, 3, 4);
      case AnonymousRequest(inner, surbs) =>
        SmallNumbersExact(0);
        UintBack(buf, PutBytes(PutUint(out, 4, 4), inner), 0, 8);
        BytesBack(buf, PutUint(out, 4, 4), inner);
        UintBack(buf, out, 4, 4);
      case ServiceResponse(requestId, fragment) =>
        FragmentBack(buf, PutUint(PutUint(out, 5, 4), requestId, 8), fragment);
        UintBack(buf, PutUint(out, 5, 4), requestId, 8);
        UintBack(buf, out, 5, 4);
      case NeedMoreSurbs(requestId, remaining) =>
        UintBack(buf, PutUint(PutUint(out, 6, 4), requestId, 8), remaining, 4);
        UintBack(buf, PutUint(out, 6, 4), requestId, 8);
        UintBack(buf, out, 6, 4);
    }
  }

  /* ----- service requests ----- */

  function PutHeaders(out: Bytes, headers: seq<Header>): Bytes {
    if headers == [] then out
    else
      var last := headers[|headers| - 1];
      PutBytes(PutBytes(PutHeaders(out, headers[..|headers| - 1]), last.0), last.1)
  }

  function GetHeaders(buf: Bytes, pos: nat, count: nat): Read<seq<Header>> {
    if count == 0 then Got([], pos)
    else
      var (rest, pos) :- GetHeaders(buf, pos, count - 1);
      var (name, pos) :- GetBytes(buf, pos);
      var (value, pos) :- GetBytes(buf, pos);
      Got(rest + [(name, value)], pos)
  }

  function PutQuoteRequest(out: Bytes, r: ServiceRequest): Bytes
    requires r.PaidQuoteRequest?
  {
    var out := PutUint(out, r.chainId, 8);
    var out := PutFixed(out, r.entryPoint);
    var out := PutFixed(out, r.clientIntentId);
    var out := PutFixed(out, r.paymentAdapter);
    var out := PutFixed(out, r.paymentId);
    var out := PutFixed(out, r.feeAsset);
    var out := PutUint(out, r.paymentGasLimit, 8);
    var out := PutFixed(out, r.actionTarget);
    var out := PutFixed(out, r.actionCalldataHash);
    var out := PutUint(out, r.actionGasLimit, 8);
    var out := PutFixed(out, r.trackedAssetsHash);
    var out := PutUint(out, r.maximumTransactionGas, 8);
    var out := PutUint(out, r.returnDataLimit, 4);
    PutUint(out, r.validUntilUnix, 8)
  }

  function PutOpen(out: Bytes, open: Option<TunnelOpen>): Bytes {
    if open.None? then PutUint(out, 0, 1)
    else PutUint(PutBytes(PutUint(out, 1, 1), open.value.host), open.value.port, 2)
  }

  function PutTunnel(out: Bytes, r: ServiceRequest): Bytes
    requires r.Tunnel?
  {
    var out := PutFixed(out, r.tunnelId);
    var out := PutUint(out, r.seq_, 4);
    var out := PutOpen(out, r.open);
    var out := PutUint(out, r.ackOffset, 8);
    var out := PutBytes(out, r.data);
    var out := PutUint(out, if r.close then 1 else 0, 1);
    PutUint(out, r.holdMs, 4)
  }

  /** What writeServiceRequest throws on: a fixed field of the wrong size, or a tunnel that opens at
      a sequence number other than 0. */
  predicate RequestRefused(r: ServiceRequest) {
    match r
    case SubmitTransaction(to, _) => |to| != 20
    case PaidTransaction(_, entryPoint, _, executionId, _) => |entryPoint| != 20 || |executionId| != 32
    case PaidQuoteRequest(_, entryPoint, intent, adapter, payment, asset, _, target, hash, _, tracked, _, _, _) =>
      |entryPoint| != 20 || |intent| != 32 || |adapter| != 20 || |payment| != 32 || |asset| != 20
      || |target| != 20 || |hash| != 32 || |tracked| != 32
    case Tunnel(id, n, open, _, _, _, _) => |id| != 16 || (open.Some? <==> n != 0)
    case _ => false
  }

  function PutRequest(out: Bytes, r: ServiceRequest): Bytes {
    match r
    case Echo(data) => PutBytes(PutUint(out, 0, 4), data)
    case HttpRequest(m, url, headers, body) =>
      var out := PutBytes(PutBytes(PutUint(out, 1, 4), m), url);
      PutBytes(PutHeaders(PutUint(out, |headers|, 8), headers), body)
    case RpcRequest(m, params, id, rpcUrl) =>
      PutOptBytes(PutUint(PutBytes(PutBytes(PutUint(out, 2, 4), m), params), id, 8), rpcUrl)
    case SubmitTransaction(to, data) => PutBytes(PutFixed(PutUint(out, 3, 4), to), data)
    case BroadcastSigned(tx, rpcUrl, rpcMethod) =>
      PutOptBytes(PutOptBytes(PutBytes(PutUint(out, 4, 4), tx), rpcUrl), rpcMethod)
    case ReplenishSurbs(requestId, surbs) =>
      PutSurbs(PutUint(PutUint(PutUint(out, 5, 4), requestId, 8), |surbs|, 8), surbs)
    case PaidTransaction(chainId, entryPoint, calldata, executionId, validUntil) =>
      var out := PutFixed(PutUint(PutUint(out, 6, 4), chainId, 8), entryPoint);
      PutUint(PutFixed(PutBytes(out, calldata), executionId), validUntil, 8)
    case PaidQuoteRequest(_, _, _, _, _, _, _, _, _, _, _, _, _, _) => PutQuoteRequest(PutUint(out, 7, 4), r)
    case Tunnel(_, _, _, _, _, _, _) => PutTunnel(PutUint(out, 8, 4), r)
  }

  function GetQuoteRequest(buf: Bytes, pos: nat): Read<ServiceRequest> {
    var (chainId, pos) :- GetUint(buf, pos, 8);
    var (entryPoint, pos) :- GetFixed(buf, pos, 20);
    var (clientIntentId, pos) :- GetFixed(buf, pos, 32);
    var (paymentAdapter, pos) :- GetFixed(buf, pos, 20);
    var (paymentId, pos) :- GetFixed(buf, pos, 32);
    var (feeAsset, pos) :- GetFixed(buf, pos, 20);
    var (paymentGasLimit, pos) :- GetUint(buf, pos, 8);
    var (actionTarget, pos) :- GetFixed(buf, pos, 20);
    var (actionCalldataHash, pos) :- GetFixed(buf, pos, 32);
    var (actionGasLimit, pos) :- GetUint(buf, pos, 8);
    var (trackedAssetsHash, pos) :- GetFixed(buf, pos, 32);
    var (maximumTransactionGas, pos) :- GetUint(buf, pos, 8);
    var (returnDataLimit, pos) :- GetUint(buf, pos, 4);
    var (validUntilUnix, pos) :- GetUint(buf, pos, 8);
    Got(PaidQuoteRequest(chainId, entryPoint, clientIntentId, paymentAdapter, paymentId, feeAsset,
                         paymentGasLimit, actionTarget, actionCalldataHash, actionGasLimit,
                         trackedAssetsHash, maximumTransactionGas, returnDataLimit, validUntilUnix), pos)
  }

  function GetOpen(buf: Bytes, pos: nat): Read<Option<TunnelOpen>> {
    var (tag, pos) :- GetUint(buf, pos, 1);
    if tag > 1 then Bad(BadOptionTag)
    else if tag == 0 then Got(None, pos)
    else
      var (host, pos) :- GetBytes(buf, pos);
      var (port, pos) :- GetUint(buf, pos, 2);
      Got(Some(TunnelOpen(host, port)), pos)
  }

  function GetTunnel(buf: Bytes, pos: nat): Read<ServiceRequest> {
    var (tunnelId, pos) :- GetFixed(buf, pos, 16);
    var (n, pos) :- GetUint(buf, pos, 4);
    var (open, pos) :- GetOpen(buf, pos);
    var (ackOffset, pos) :- GetUint(buf, pos, 8);
    var (data, pos) :- GetBytes(buf, pos);
    var (close, pos) :- GetBool(buf, pos);
    var (holdMs, pos) :- GetUint(buf, pos, 4);
    Got(Tunnel(tunnelId, n, open, ackOffset, data, close, holdMs), pos)
  }

  function GetRequest(buf: Bytes, pos: nat): Read<ServiceRequest> {
    var (variant, pos) :- GetUint(buf, pos, 4);
    match variant
    case 0 =>
      var (data, pos) :- GetBytes(buf, pos);
      Got(Echo(data), pos)
    case 1 =>
      var (m, pos) :- GetBytes(buf, pos);
      var (url, pos) :- GetBytes(buf, pos);
      var (count, pos) :- GetUint(buf, pos, 8);
      var (headers, pos) :- GetHeaders(buf, pos, NumberOf(count));
      var (body, pos) :- GetBytes(buf, pos);
      Got(HttpRequest(m, url, headers, body), pos)
    case 2 =>
      var (m, pos) :- GetBytes(buf, pos);
      var (params, pos) :- GetBytes(buf, pos);
      var (id, pos) :- GetUint(buf, pos, 8);
      var (rpcUrl, pos) :- GetOptBytes(buf, pos);
      Got(RpcRequest(m, params, id, rpcUrl), pos)
    case 3 =>
      var (to, pos) :- GetFixed(buf, pos, 20);
      var (data, pos) :- GetBytes(buf, pos);
      Got(SubmitTransaction(to, data), pos)
    case 4 =>
      var (tx, pos) :- GetBytes(buf, pos);
      var (rpcUrl, pos) :- GetOptBytes(buf, pos);
      var (rpcMethod, pos) :- GetOptBytes(buf, pos);
      Got(BroadcastSigned(tx, rpcUrl, rpcMethod), pos)
    case 5 =>
      var (requestId, pos) :- GetUint(buf, pos, 8);
      var (count, pos) :- GetUint(buf, pos, 8);
      if NumberOf(count) > 0 then Bad(InlineSurbs) else Got(ReplenishSurbs(requestId, []), pos)
    case 6 =>
      var (chainId, pos) :- GetUint(buf, pos, 8);
      var (entryPoint, pos) :- GetFixed(buf, pos, 20);
      var (calldata, pos) :- GetBytes(buf, pos);
      var (executionId, pos) :- GetFixed(buf, pos, 32);
      var (validUntil, pos) :- GetUint(buf, pos, 8);
      Got(PaidTransaction(chainId, entryPoint, calldata, executionId, validUntil), pos)
    case 7 => GetQuoteRequest(buf, pos)
    case 8 => GetTunnel(buf, pos)
    case _ => Bad(UnknownVariant)
  }

  predicate HoldableOption(v: Option<Bytes>) { v.Some? ==> Holdable(v.value) }

  /** Requests the reader can return: fields in their integer ranges, no inline reply blocks. */
  predicate WritableRequest(r: ServiceRequest) {
    && !RequestRefused(r)
    && match r
       case Echo(data) => Holdable(data)
       case HttpRequest(m, url, headers, body) =>
         && Holdable(m) && Holdable(url) && Holdable(body) && |headers| < TWO_53
         && forall i :: 0 <= i < |headers| ==> Holdable(headers[i].0) && Holdable(headers[i].1)
       case RpcRequest(m, params, id, rpcUrl) =>
         Holdable(m) && Holdable(params) && U64(id) && HoldableOption(rpcUrl)
       case SubmitTransaction(_, data) => Holdable(data)
       case BroadcastSigned(tx, rpcUrl, rpcMethod) =>
         Holdable(tx) && HoldableOption(rpcUrl) && HoldableOption(rpcMethod)
       case ReplenishSurbs(requestId, surbs) => U64(requestId) && surbs == []
       case PaidTransaction(chainId, _, calldata, _, validUntil) =>
         U64(chainId) && Holdable(calldata) && U64(validUntil)
       case PaidQuoteRequest(chainId, _, _, _, _, _, paymentGas, _, _, actionGas, _, maxGas, limit, validUntil) =>
         && U64(chainId) && U64(paymentGas) && U64(actionGas) && U64(maxGas) && U32(limit) && U64(validUntil)
       case Tunnel(_, n, open, ackOffset, data, _, holdMs) =>
         && U32(n) && U64(ackOffset) && Holdable(data) && U32(holdMs)
         && (open.Some? ==> Holdable(open.value.host) && U16(open.value.port))
  }

  lemma {:induction false} HeadersBack(buf: Bytes, out: Bytes, headers: seq<Header>)
    requires PutHeaders(out, headers) <= buf
    requires forall i :: 0 <= i < |headers| ==> Holdable(headers[i].0) && Holdable(headers[i].1)
    ensures out <= buf && GetHeaders(buf, |out|, |headers|) == Got(headers, |PutHeaders(out, headers)|)
    decreases |headers|
  {
    hide PutBytes, GetBytes, Holdable;
    if headers != [] {
      var front, last := headers[..|headers| - 1], headers[|headers| - 1];
      var o := PutHeaders(out, front);
      BytesBack(buf, PutBytes(o, last.0), last.1);
      BytesBack(buf, o, last.0);
      HeadersBack(buf, out, front);
      assert front + [(last.0, last.1)] == headers;
    }
  }

  lemma QuoteRequestBack(buf: Bytes, out: Bytes, r: ServiceRequest)
    requires r.PaidQuoteRequest? && PutQuoteRequest(out, r) <= buf && WritableRequest(r)
    ensures out <= buf && GetQuoteRequest(buf, |out|) == Got(r, |PutQuoteRequest(out, r)|)
  {
    hide PutUint, PutFixed, GetUint, GetFixed, Pow256;
    Widths();
    var o1 := PutUint(out, r.chainId, 8);
    var o2 := PutFixed(o1, r.entryPoint);
    var o3 := PutFixed(o2, r.clientIntentId);
    var o4 := PutFixed(o3, r.paymentAdapter);
    var o5 := PutFixed(o4, r.paymentId);
    var o6 := PutFixed(o5, r.feeAsset);
    var o7 := PutUint(o6, r.paymentGasLimit, 8);
    var o8 := PutFixed(o7, r.actionTarget);
    var o9 := PutFixed(o8, r.actionCalldataHash);
    var o10 := PutUint(o9, r.actionGasLimit, 8);
    var o11 := PutFixed(o10, r.trackedAssetsHash);
    var o12 := PutUint(o11, r.maximumTransactionGas, 8);
    var o13 := PutUint(o12, r.returnDataLimit, 4);
    UintBack(buf, o13, r.validUntilUnix, 8);
    UintBack(buf, o12, r.returnDataLimit, 4);
    UintBack(buf, o11, r.maximumTransactionGas, 8);
    FixedBack(buf, o10, r.trackedAssetsHash);
    UintBack(buf, o9, r.actionGasLimit, 8);
    FixedBack(buf, o8, r.actionCalldataHash);
    FixedBack(buf, o7, r.actionTarget);
    UintBack(buf, o6, r.paymentGasLimit, 8);
    FixedBack(buf, o5, r.feeAsset);
    FixedBack(buf, o4, r.paymentId);
    FixedBack(buf, o3, r.paymentAdapter);
    FixedBack(buf, o2, r.clientIntentId);
    FixedBack(buf, o1, r.entryPoint);
    UintBack(buf, out, r.chainId, 8);
  }

  lemma OpenBack(buf: Bytes, out: Bytes, open: Option<TunnelOpen>)
    requires PutOpen(out, open) <= buf
    requires open.Some? ==> Holdable(open.value.host) && U16(open.value.port)
    ensures out <= buf && GetOpen(buf, |out|) == Got(open, |PutOpen(out, open)|)
  {
    hide PutUint, PutBytes, GetUint, GetBytes, Pow256;
    Widths();
    if open.None? {
      UintBack(buf, out, 0, 1);
    } else {
      var o1 := PutUint(out, 1, 1);
      UintBack(buf, PutBytes(o1, open.value.host), open.value.port, 2);
      BytesBack(buf, o1, open.value.host);
      UintBack(buf, out, 1, 1);
    }
  }

  lemma TunnelBack(buf: Bytes, out: Bytes, r: ServiceRequest)
    requires r.Tunnel? && PutTunnel(out, r) <= buf && WritableRequest(r)
    ensures out <= buf && GetTunnel(buf, |out|) == Got(r, |PutTunnel(out, r)|)
  {
    hide PutUint, PutFixed, PutBytes, PutOpen, GetUint, GetFixed, GetBytes, GetOpen, GetBool, Pow256;
    Widths();
    var o1 := PutFixed(out, r.tunnelId);
    var o2 := PutUint(o1, r.seq_, 4);
    var o3 := PutOpen(o2, r.open);
    var o4 := PutUint(o3, r.ackOffset, 8);
    var o5 := PutBytes(o4, r.data);
    var o6 := PutUint(o5, if r.close then 1 else 0, 1);
    UintBack(buf, o6, r.holdMs, 4);
    BoolBack(buf, o5, r.close);
    BytesBack(buf, o4, r.data);
    UintBack(buf, o3, r.ackOffset, 8);
    OpenBack(buf, o2, r.open);
    UintBack(buf, o1, r.seq_, 4);
    FixedBack(buf, out, r.tunnelId);
  }

  lemma HttpBack(buf: Bytes, out: Bytes, r: ServiceRequest)
    requires r.HttpRequest? && PutRequest(out, r) <= buf && WritableRequest(r)
    ensures out <= buf && GetRequest(buf, |out|) == Got(r, |PutRequest(out, r)|)
  {
    hide PutUint, PutBytes, PutHeaders, GetUint, GetBytes, GetHeaders, Pow256, Holdable, NumberOf;
    Widths();
    var o1 := PutUint(out, 1, 4);
    var o2 := PutBytes(o1, r.method_);
    var o3 := PutBytes(o2, r.url);
    var o4 := PutUint(o3, |r.headers|, 8);
    BytesBack(buf, PutHeaders(o4, r.headers), r.body);
    HeadersBack(buf, o4, r.headers);
    SmallNumbersExact(|r.headers|);
    UintBack(buf, o3, |r.headers|, 8);
    BytesBack(buf, o2, r.url);
    BytesBack(buf, o1, r.method_);
    UintBack(buf, out, 1, 4);
  }

  /** Reading a written request returns it and stops where it ended, whatever follows. */
  lemma RequestBack(buf: Bytes, out: Bytes, r: ServiceRequest)
    requires PutRequest(out, r) <= buf && WritableRequest(r)
    ensures out <= buf && GetRequest(buf, |out|) == Got(r, |PutRequest(out, r)|)
  {
    hide PutUint, PutFixed, PutBytes, PutOptBytes, PutTunnel, PutQuoteRequest, PutHeaders;
    hide GetUint, GetFixed, GetBytes, GetOptBytes, GetTunnel, GetQuoteRequest, GetHeaders;
    hide Pow256, Holdable, NumberOf;
    Widths();
    match r {
      case Echo(data) =>
        BytesBack(buf, PutUint(out, 0, 4), data);
        UintBack(buf, out, 0, 4);
      case HttpRequest(_, _, _, _) =>
        HttpBack(buf, out, r);
      case RpcRequest(m, params, id, rpcUrl) =>
        var o1 := PutUint(out, 2, 4);
        var o2 := PutBytes(o1, m);
        var o3 := PutBytes(o2, params);
        OptBytesBack(buf, PutUint(o3, id, 8), rpcUrl);
        UintBack(buf, o3, id, 8);
        BytesBack(buf, o2, params);
        BytesBack(buf, o1, m);
        UintBack(buf, out, 2, 4);
      case SubmitTransaction(to, data) =>
        BytesBack(buf, PutFixed(PutUint(out, 3, 4), to), data);
        FixedBack(buf, PutUint(out, 3, 4), to);
        UintBack(buf, out, 3, 4);
      case BroadcastSigned(tx, rpcUrl, rpcMethod) =>
        var o1 := PutUint(out, 4, 4);
        var o2 := PutBytes(o1, tx);
        OptBytesBack(buf, PutOptBytes(o2, rpcUrl), rpcMethod);
        OptBytesBack(buf, o2, rpcUrl);
        BytesBack(buf, o1, tx);
        UintBack(buf, out, 4, 4);
      case ReplenishSurbs(requestId, surbs) =>
        SmallNumbersExact(0);
        UintBack(buf, PutUint(PutUint(out, 5, 4), requestId, 8), 0, 8);
        UintBack(buf, PutUint(out, 5, 4), requestId, 8);
        UintBack(buf, out, 5, 4);
      case PaidTransaction(chainId, entryPoint, calldata, executionId, validUntil) =>
        var o1 := PutUint(out, 6, 4);
        var o2 := PutUint(o1, chainId, 8);
        var o3 := PutFixed(o2, entryPoint);
        var o4 := PutBytes(o3, calldata);
        UintBack(buf, PutFixed(o4, executionId), validUntil, 8);
        FixedBack(buf, o4, executionId);
        BytesBack(buf, o3, calldata);
        FixedBack(buf, o2, entryPoint);
        UintBack(buf, o1, chainId, 8);
        UintBack(buf, out, 6, 4);
      case PaidQuoteRequest(_, _, _, _, _, _, _, _, _, _, _, _, _, _) =>
        QuoteRequestBack(buf, PutUint(out, 7, 4), r);
        UintBack(buf, out, 7, 4);
      case Tunnel(_, _, _, _, _, _, _) =>
        TunnelBack(buf, PutUint(out, 8, 4), r);
        UintBack(buf, out, 8, 4);
    }
  }

  /* ----- versioned messages ----- */

  function GetVersion(buf: Bytes): Read<()> {
    var (version, pos) :- GetUint(buf, 0, 1);
    if version != PAYLOAD_VERSION then Bad(BadVersion) else Got((), pos)
  }

  function EncodedRequest(r: ServiceRequest): Bytes { PutRequest(PutUint([], PAYLOAD_VERSION, 1), r) }

  function EncodedPayload(p: RelayerPayload): Bytes { PutPayload(PutUint([], PAYLOAD_VERSION, 1), p) }

  /** decodeServiceRequest refuses bytes after the request. */
  function DecodedRequest(buf: Bytes): Read<ServiceRequest> {
    var (_, pos) :- GetVersion(buf);
    var (r, pos) :- GetRequest(buf, pos);
    if pos != |buf| then Bad(TrailingBytes) else Got(r, pos)
  }

  /** decodeRelayerPayload ignores bytes after the payload. */
  function DecodedPayload(buf: Bytes): Read<RelayerPayload> {
    var (_, pos) :- GetVersion(buf);
    GetPayload(buf, pos)
  }

  /** A request comes back exactly when nothing was appended to its encoding. */
  lemma RequestRoundTrip(r: ServiceRequest, suffix: Bytes)
    requires WritableRequest(r)
    ensures DecodedRequest(EncodedRequest(r) + suffix)
         == if suffix == [] then Got(r, |EncodedRequest(r)|) else Bad(TrailingBytes)
  {
    hide PutRequest, GetRequest, PutUint, GetUint, Pow256, WritableRequest;
    Widths();
    var buf, out := EncodedRequest(r) + suffix, PutUint([], PAYLOAD_VERSION, 1);
    RequestBack(buf, out, r);
    UintBack(buf, [], PAYLOAD_VERSION, 1);
  }

  lemma PayloadRoundTrip(p: RelayerPayload, suffix: Bytes)
    requires WritablePayload(p)
    ensures DecodedPayload(EncodedPayload(p) + suffix) == Got(p, |EncodedPayload(p)|)
  {
    hide PutPayload, GetPayload, PutUint, GetUint, Pow256, WritablePayload;
    Widths();
    var buf, out := EncodedPayload(p) + suffix, PutUint([], PAYLOAD_VERSION, 1);
    PayloadBack(buf, out, p);
    UintBack(buf, [], PAYLOAD_VERSION, 1);
  }
}
