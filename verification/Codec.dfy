/** The encoder and decoder objects: a writer that collects chunks, a reader that moves a position.
    Their methods do what the functions of modules WireFormat and Messages say. */
module Codec {
  import opened Outcomes
  import opened ByteValues
  import opened WireFormat
  import opened Messages
  import opened Reassembly
  import ByteBuffers

  class Writer {
    var chunks: seq<Bytes>
    var totalLen: nat

    ghost function Contents(): Bytes
      reads this
    {
      ByteBuffers.Flat(chunks)
    }

    ghost predicate Valid()
      reads this
    {
      totalLen == |Contents()|
    }

    constructor ()
      ensures Valid() && Contents() == []
    {
      chunks := [];
      totalLen := 0;
    }

    method Raw(chunk: Bytes)
      requires Valid()
      modifies this
      ensures Valid() && Contents() == old(Contents()) + chunk
    {
      assert (chunks + [chunk])[..|chunks|] == chunks;
      chunks := chunks + [chunk];
      totalLen := totalLen + |chunk|;
    }

    /** u8, u16, u32 and u64: the low w bytes of n. */
    method Uint(n: nat, w: nat)
      requires Valid()
      modifies this
      ensures Valid() && Contents() == PutUint(old(Contents()), n, w)
    {
      Raw(LittleEndian(n, w));
    }

    method Fixed(v: Bytes)
      requires Valid()
      modifies this
      ensures Valid() && Contents() == PutFixed(old(Contents()), v)
    {
      if |v| > 0 {
        Raw(v);
      } else {
        assert Contents() + v == Contents();
      }
    }

    method LengthPrefixed(v: Bytes)
      requires Valid()
      modifies this
      ensures Valid() && Contents() == PutBytes(old(Contents()), v)
    {
      hide PutUint, PutFixed;
      Uint(|v|, 8);
      Fixed(v);
    }

    method Optional(v: Option<Bytes>)
      requires Valid()
      modifies this
      ensures Valid() && Contents() == PutOptBytes(old(Contents()), v)
    {
      hide PutUint, PutBytes;
      if v.None? {
        Uint(0, 1);
      } else {
        Uint(1, 1);
        LengthPrefixed(v.value);
      }
    }

    method Finish() returns (out: Bytes)
      requires Valid()
      ensures out == Contents()
    {
      out := ByteBuffers.CopyParts(chunks, totalLen, totalLen);
    }
  }

  method WriteFragment(w: Writer, f: Fragment)
    requires w.Valid()
    modifies w
    ensures w.Valid() && w.Contents() == PutFragment(old(w.Contents()), f)
  {
    hide PutUint, PutBytes;
    w.Uint(f.messageId, 8);
    w.Uint(f.totalFragments, 4);
    w.Uint(f.sequence, 4);
    w.LengthPrefixed(f.data);
    if f.fec.None? {
      w.Uint(0, 1);
    } else {
      w.Uint(1, 1);
      w.Uint(f.fec.value.dataShardCount, 4);
      w.Uint(f.fec.value.originalDataLen, 8);
    }
  }

  method WriteSurbs(w: Writer, surbs: seq<Bytes>)
    requires w.Valid()
    modifies w
    ensures w.Valid() && w.Contents() == PutSurbs(old(w.Contents()), surbs)
  {
    hide PutFixed;
    assert surbs[..|surbs|] == surbs;
    for i := 0 to |surbs|
      invariant w.Valid() && w.Contents() == PutSurbs(old(w.Contents()), surbs[..i])
    {
      assert surbs[..i + 1][..i] == surbs[..i];
      w.Fixed(surbs[i]);
    }
  }

  /** writeRelayerPayload: refuses a transaction target that is not 20 bytes. */
  method WritePayload(w: Writer, p: RelayerPayload) returns (ok: bool)
    requires w.Valid()
    modifies w
    ensures ok <==> !PayloadRefused(p)
    ensures ok ==> w.Valid() && w.Contents() == PutPayload(old(w.Contents()), p)
  {
    hide PutUint, PutBytes, PutFixed, PutFragment, PutSurbs;
    ok := true;
    match p
    case RelayTransaction(to, data) =>
      w.Uint(0, 4);
      if |to| != 20 { return false; }
      w.Fixed(to);
      w.LengthPrefixed(data);
    case Dummy(padding) =>
      w.Uint(1, 4);
      w.LengthPrefixed(padding);
    case Heartbeat(id, timestamp) =>
      w.Uint(2, 4);
      w.Uint(id, 8);
      w.Uint(timestamp, 8);
    case FragmentPayload(frag) =>
      w.Uint(3, 4);
      WriteFragment(w, frag);
    case AnonymousRequest(inner, surbs) =>
      w.Uint(4, 4);
      w.LengthPrefixed(inner);
      w.Uint(|surbs|, 8);
      WriteSurbs(w, surbs);
    case ServiceResponse(requestId, fragment) =>
      w.Uint(5, 4);
      w.Uint(requestId, 8);
      WriteFragment(w, fragment);
    case NeedMoreSurbs(requestId, remaining) =>
      w.Uint(6, 4);
      w.Uint(requestId, 8);
      w.Uint(remaining, 4);
  }

  method WriteHeaders(w: Writer, headers: seq<Header>)
    requires w.Valid()
    modifies w
    ensures w.Valid() && w.Contents() == PutHeaders(old(w.Contents()), headers)
  {
    hide PutBytes;
    assert headers[..|headers|] == headers;
    for i := 0 to |headers|
      invariant w.Valid() && w.Contents() == PutHeaders(old(w.Contents()), headers[..i])
    {
      assert headers[..i + 1][..i] == headers[..i];
      w.LengthPrefixed(headers[i].0);
      w.LengthPrefixed(headers[i].1);
    }
  }

  method WriteQuoteRequest(w: Writer, r: ServiceRequest) returns (ok: bool)
    requires w.Valid() && r.PaidQuoteRequest?
    modifies w
    ensures ok <==> !RequestRefused(r)
    ensures ok ==> w.Valid() && w.Contents() == PutQuoteRequest(old(w.Contents()), r)
  {
    hide PutUint, PutFixed;
    w.Uint(r.chainId, 8);
    if |r.entryPoint| != 20 { return false; }
    w.Fixed(r.entryPoint);
    if |r.clientIntentId| != 32 { return false; }
    w.Fixed(r.clientIntentId);
    if |r.paymentAdapter| != 20 { return false; }
    w.Fixed(r.paymentAdapter);
    if |r.paymentId| != 32 { return false; }
    w.Fixed(r.paymentId);
    if |r.feeAsset| != 20 { return false; }
    w.Fixed(r.feeAsset);
    w.Uint(r.paymentGasLimit, 8);
    if |r.actionTarget| != 20 { return false; }
    w.Fixed(r.actionTarget);
    if |r.actionCalldataHash| != 32 { return false; }
    w.Fixed(r.actionCalldataHash);
    w.Uint(r.actionGasLimit, 8);
    if |r.trackedAssetsHash| != 32 { return false; }
    w.Fixed(r.trackedAssetsHash);
    w.Uint(r.maximumTransactionGas, 8);
    w.Uint(r.returnDataLimit, 4);
    w.Uint(r.validUntilUnix, 8);
    return true;
  }

  method WriteTunnel(w: Writer, r: ServiceRequest) returns (ok: bool)
    requires w.Valid() && r.Tunnel?
    modifies w
    ensures ok <==> !RequestRefused(r)
    ensures ok ==> w.Valid() && w.Contents() == PutTunnel(old(w.Contents()), r)
  {
    hide PutUint, PutFixed, PutBytes;
    if |r.tunnelId| != 16 { return false; }
    w.Fixed(r.tunnelId);
    w.Uint(r.seq_, 4);
    if r.open.Some? != (r.seq_ == 0) { return false; }
    if r.open.None? {
      w.Uint(0, 1);
    } else {
      w.Uint(1, 1);
      w.LengthPrefixed(r.open.value.host);
      w.Uint(r.open.value.port, 2);
    }
    w.Uint(r.ackOffset, 8);
    w.LengthPrefixed(r.data);
    w.Uint(if r.close then 1 else 0, 1);
    w.Uint(r.holdMs, 4);
    return true;
  }

  /** writeServiceRequest. */
  method WriteRequest(w: Writer, r: ServiceRequest) returns (ok: bool)
    requires w.Valid()
    modifies w
    ensures ok <==> !RequestRefused(r)
    ensures ok ==> w.Valid() && w.Contents() == PutRequest(old(w.Contents()), r)
  {
    hide PutUint, PutBytes, PutFixed, PutOptBytes, PutHeaders, PutSurbs, PutQuoteRequest, PutTunnel;
    ok := true;
    match r
    case Echo(data) =>
      w.Uint(0, 4);
      w.LengthPrefixed(data);
    case HttpRequest(m, url, headers, body) =>
      w.Uint(1, 4);
      w.LengthPrefixed(m);
      w.LengthPrefixed(url);
      w.Uint(|headers|, 8);
      WriteHeaders(w, headers);
      w.LengthPrefixed(body);
    case RpcRequest(m, params, id, rpcUrl) =>
      w.Uint(2, 4);
      w.LengthPrefixed(m);
      w.LengthPrefixed(params);
      w.Uint(id, 8);
      w.Optional(rpcUrl);
    case SubmitTransaction(to, data) =>
      w.Uint(3, 4);
      if |to| != 20 { return false; }
      w.Fixed(to);
      w.LengthPrefixed(data);
    case BroadcastSigned(tx, rpcUrl, rpcMethod) =>
      w.Uint(4, 4);
      w.LengthPrefixed(tx);
      w.Optional(rpcUrl);
      w.Optional(rpcMethod);
    case ReplenishSurbs(requestId, surbs) =>
      w.Uint(5, 4);
      w.Uint(requestId, 8);
      w.Uint(|surbs|, 8);
      WriteSurbs(w, surbs);
    case PaidTransaction(chainId, entryPoint, calldata, executionId, validUntil) =>
      w.Uint(6, 4);
      w.Uint(chainId, 8);
      if |entryPoint| != 20 { return false; }
      w.Fixed(entryPoint);
      w.LengthPrefixed(calldata);
      if |executionId| != 32 { return false; }
      w.Fixed(executionId);
      w.Uint(validUntil, 8);
    case PaidQuoteRequest(_, _, _, _, _, _, _, _, _, _, _, _, _, _) =>
      w.Uint(7, 4);
      ok := WriteQuoteRequest(w, r);
    case Tunnel(_, _, _, _, _, _, _) =>
      w.Uint(8, 4);
      ok := WriteTunnel(w, r);
  }

  method EncodeServiceRequest(r: ServiceRequest) returns (out: Option<Bytes>)
    ensures out == if RequestRefused(r) then None else Some(EncodedRequest(r))
  {
    hide PutUint, PutRequest;
    var w := new Writer();
    w.Uint(PAYLOAD_VERSION, 1);
    var ok := WriteRequest(w, r);
    if !ok { return None; }
    var bytes := w.Finish();
    return Some(bytes);
  }

  method EncodeRelayerPayload(p: RelayerPayload) returns (out: Option<Bytes>)
    ensures out == if PayloadRefused(p) then None else Some(EncodedPayload(p))
  {
    hide PutUint, PutPayload;
    var w := new Writer();
    w.Uint(PAYLOAD_VERSION, 1);
    var ok := WritePayload(w, p);
    if !ok { return None; }
    var bytes := w.Finish();
    return Some(bytes);
  }

  /* ----- reading ----- */

  /** The value of a read, or its fault; on success the position moved to where the read stopped. */
  ghost predicate Matches<T>(r: Result<T, Fault>, spec: Read<T>, pos: nat) {
    match spec
    case Got(value, next) => r == Ok(value) && pos == next
    case Bad(fault) => r == Err(fault)
  }

  class Reader {
    const buf: Bytes
    var pos: nat

    constructor (bytes: Bytes, offset: nat)
      ensures buf == bytes && pos == offset
    {
      buf := bytes;
      pos := offset;
    }

    method Uint(w: nat) returns (r: Result<nat, Fault>)
      modifies this
      ensures Matches(r, GetUint(buf, old(pos), w), pos)
    {
      if pos + w > |buf| { return Err(UnexpectedEnd); }
      var n := FromLittleEndian(buf[pos..pos + w]);
      pos := pos + w;
      return Ok(n);
    }

    method Fixed(n: nat) returns (r: Result<Bytes, Fault>)
      modifies this
      ensures Matches(r, GetFixed(buf, old(pos), n), pos)
    {
      if pos + n > |buf| { return Err(UnexpectedEnd); }
      var v := buf[pos..pos + n];
      pos := pos + n;
      return Ok(v);
    }

    method LengthPrefixed() returns (r: Result<Bytes, Fault>)
      modifies this
      ensures Matches(r, GetBytes(buf, old(pos)), pos)
    {
      hide GetUint, GetFixed, NumberOf;
      var len :- Uint(8);
      r := Fixed(NumberOf(len));
    }

    method Optional() returns (r: Result<Option<Bytes>, Fault>)
      modifies this
      ensures Matches(r, GetOptBytes(buf, old(pos)), pos)
    {
      hide GetUint, GetBytes;
      var tag :- Uint(1);
      if tag == 0 { return Ok(None); }
      var v :- LengthPrefixed();
      return Ok(Some(v));
    }

    method Bool() returns (r: Result<bool, Fault>)
      modifies this
      ensures Matches(r, GetBool(buf, old(pos)), pos)
    {
      hide GetUint;
      var v :- Uint(1);
      if v > 1 { return Err(BadBool); }
      return Ok(v == 1);
    }

    method HeaderList(count: nat) returns (r: Result<seq<Header>, Fault>)
      modifies this
      ensures Matches(r, GetHeaders(buf, old(pos), count), pos)
    {
      hide GetBytes;
      var headers: seq<Header> := [];
      for i := 0 to count
        invariant GetHeaders(buf, old(pos), i) == Got(headers, pos)
      {
        var name := LengthPrefixed();
        if name.Err? {
          FaultsPersist(buf, old(pos), i + 1, count);
          return Err(name.error);
        }
        var value := LengthPrefixed();
        if value.Err? {
          FaultsPersist(buf, old(pos), i + 1, count);
          return Err(value.error);
        }
        headers := headers + [(name.value, value.value)];
      }
      return Ok(headers);
    }
  }

  /** A header list that fails early fails in the same way when more headers are asked for. */
  lemma {:induction false} FaultsPersist(buf: Bytes, pos: nat, i: nat, count: nat)
    requires i <= count && GetHeaders(buf, pos, i).Bad?
    ensures GetHeaders(buf, pos, count) == GetHeaders(buf, pos, i)
  {
    hide GetBytes;
    if i < count { FaultsPersist(buf, pos, i, count - 1); }
  }

  /** readFragmentWire. */
  method ReadFragment(r: Reader) returns (f: Result<Fragment, Fault>)
    modifies r
    ensures Matches(f, GetFragment(r.buf, old(r.pos)), r.pos)
  {
    hide GetUint, GetBytes, NumberOf;
    var messageId :- r.Uint(8);
    var total :- r.Uint(4);
    var sequence :- r.Uint(4);
    var data :- r.LengthPrefixed();
    var tag :- r.Uint(1);
    if tag != 1 { return Ok(Fragment(messageId, total, sequence, data, None)); }
    var count :- r.Uint(4);
    var len :- r.Uint(8);
    return Ok(Fragment(messageId, total, sequence, data, Some(Fec(count, NumberOf(len)))));
  }

  /** readRelayerPayload. */
  method ReadPayload(r: Reader) returns (p: Result<RelayerPayload, Fault>)
    modifies r
    ensures Matches(p, GetPayload(r.buf, old(r.pos)), r.pos)
  {
    hide GetUint, GetBytes, GetFixed, GetFragment, NumberOf;
    var variant :- r.Uint(4);
    match variant
    case 0 =>
      var to :- r.Fixed(20);
      var data :- r.LengthPrefixed();
      return Ok(RelayTransaction(to, data));
    case 1 =>
      var padding :- r.LengthPrefixed();
      return Ok(Dummy(padding));
    case 2 =>
      var id :- r.Uint(8);
      var timestamp :- r.Uint(8);
      return Ok(Heartbeat(id, timestamp));
    case 3 =>
      var frag :- ReadFragment(r);
      return Ok(FragmentPayload(frag));
    case 4 =>
      var inner :- r.LengthPrefixed();
      var count :- r.Uint(8);
      return if NumberOf(count) > 0 then Err(InlineSurbs) else Ok(AnonymousRequest(inner, []));
    case 5 =>
      var requestId :- r.Uint(8);
      var fragment :- ReadFragment(r);
      return Ok(ServiceResponse(requestId, fragment));
    case 6 =>
      var requestId :- r.Uint(8);
      var remaining :- r.Uint(4);
      return Ok(NeedMoreSurbs(requestId, remaining));
    case _ =>
      return Err(UnknownVariant);
  }

  method ReadQuoteRequest(r: Reader) returns (q: Result<ServiceRequest, Fault>)
    modifies r
    ensures Matches(q, GetQuoteRequest(r.buf, old(r.pos)), r.pos)
  {
    hide GetUint, GetFixed;
    var chainId :- r.Uint(8);
    var entryPoint :- r.Fixed(20);
    var clientIntentId :- r.Fixed(32);
    var paymentAdapter :- r.Fixed(20);
    var paymentId :- r.Fixed(32);
    var feeAsset :- r.Fixed(20);
    var paymentGasLimit :- r.Uint(8);
    var actionTarget :- r.Fixed(20);
    var actionCalldataHash :- r.Fixed(32);
    var actionGasLimit :- r.Uint(8);
    var trackedAssetsHash :- r.Fixed(32);
    var maximumTransactionGas :- r.Uint(8);
    var returnDataLimit :- r.Uint(4);
    var validUntilUnix :- r.Uint(8);
    return Ok(PaidQuoteRequest(chainId, entryPoint, clientIntentId, paymentAdapter, paymentId, feeAsset,
                               paymentGasLimit, actionTarget, actionCalldataHash, actionGasLimit,
                               trackedAssetsHash, maximumTransactionGas, returnDataLimit, validUntilUnix));
  }

  method ReadTunnel(r: Reader) returns (t: Result<ServiceRequest, Fault>)
    modifies r
    ensures Matches(t, GetTunnel(r.buf, old(r.pos)), r.pos)
  {
    hide GetUint, GetFixed, GetBytes, GetBool;
    var tunnelId :- r.Fixed(16);
    var n :- r.Uint(4);
    var tag :- r.Uint(1);
    if tag > 1 { return Err(BadOptionTag); }
    var open: Option<TunnelOpen> := None;
    if tag == 1 {
      var host :- r.LengthPrefixed();
      var port :- r.Uint(2);
      open := Some(TunnelOpen(host, port));
    }
    var ackOffset :- r.Uint(8);
    var data :- r.LengthPrefixed();
    var close :- r.Bool();
    var holdMs :- r.Uint(4);
    return Ok(Tunnel(tunnelId, n, open, ackOffset, data, close, holdMs));
  }

  /** readServiceRequest. */
  method ReadRequest(r: Reader) returns (q: Result<ServiceRequest, Fault>)
    modifies r
    ensures Matches(q, GetRequest(r.buf, old(r.pos)), r.pos)
  {
    hide GetUint, GetBytes, GetFixed, GetOptBytes, GetHeaders, GetQuoteRequest, GetTunnel, NumberOf;
    var variant :- r.Uint(4);
    match variant
    case 0 =>
      var data :- r.LengthPrefixed();
      return Ok(Echo(data));
    case 1 =>
      var m :- r.LengthPrefixed();
      var url :- r.LengthPrefixed();
      var count :- r.Uint(8);
      var headers :- r.HeaderList(NumberOf(count));
      var body :- r.LengthPrefixed();
      return Ok(HttpRequest(m, url, headers, body));
    case 2 =>
      var m :- r.LengthPrefixed();
      var params :- r.LengthPrefixed();
      var id :- r.Uint(8);
      var rpcUrl :- r.Optional();
      return Ok(RpcRequest(m, params, id, rpcUrl));
    case 3 =>
      var to :- r.Fixed(20);
      var data :- r.LengthPrefixed();
      return Ok(SubmitTransaction(to, data));
    case 4 =>
      var tx :- r.LengthPrefixed();
      var rpcUrl :- r.Optional();
      var rpcMethod :- r.Optional();
      return Ok(BroadcastSigned(tx, rpcUrl, rpcMethod));
    case 5 =>
      var requestId :- r.Uint(8);
      var count :- r.Uint(8);
      return if NumberOf(count) > 0 then Err(InlineSurbs) else Ok(ReplenishSurbs(requestId, []));
    case 6 =>
      var chainId :- r.Uint(8);
      var entryPoint :- r.Fixed(20);
      var calldata :- r.LengthPrefixed();
      var executionId :- r.Fixed(32);
      var validUntil :- r.Uint(8);
      return Ok(PaidTransaction(chainId, entryPoint, calldata, executionId, validUntil));
    case 7 =>
      q := ReadQuoteRequest(r);
    case 8 =>
      q := ReadTunnel(r);
    case _ =>
      return Err(UnknownVariant);
  }

  method DecodeServiceRequest(bytes: Bytes) returns (q: Result<ServiceRequest, Fault>)
    ensures Matches(q, DecodedRequest(bytes), |bytes|)
  {
    hide GetUint, GetRequest;
    var r := new Reader(bytes, 0);
    var version :- r.Uint(1);
    if version != PAYLOAD_VERSION { return Err(BadVersion); }
    var request :- ReadRequest(r);
    if r.pos != |bytes| { return Err(TrailingBytes); }
    return Ok(request);
  }

  method DecodeRelayerPayload(bytes: Bytes) returns (p: Result<RelayerPayload, Fault>)
    ensures match DecodedPayload(bytes)
            case Got(value, _) => p == Ok(value)
            case Bad(fault) => p == Err(fault)
  {
    hide GetUint, GetPayload;
    var r := new Reader(bytes, 0);
    var version :- r.Uint(1);
    if version != PAYLOAD_VERSION { return Err(BadVersion); }
    p := ReadPayload(r);
  }
}
