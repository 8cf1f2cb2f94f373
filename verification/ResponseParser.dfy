/** The response parser object: it drains its buffer and grows its body in place, one turn per call, and
    each call does the turn that module HttpParsing describes. After an error its fields are not used. */
module ResponseParserObject {
  import opened Outcomes
  import opened ByteValues
  import opened HttpText
  import opened HttpParsing

  datatype HttpResponse = HttpResponse(status: nat, headers: seq<Field>, body: Bytes, keepAlive: bool)

  /** A call that returned r and left the parser as view did the turn t. */
  ghost predicate DidTurn(t: Turn, r: Result<bool, HttpError>, view: Parser) {
    match t
    case Go(next) => r == Ok(true) && view == next
    case Wait(rest) => r == Ok(false) && view == rest
    case Fail(error) => r == Err(error)
  }

  predicate AtRest(p: Parser) {
    p.state.Done? || (p.state.InBody? && p.state.framing.UntilClose?) ==> p.buf == []
  }

  function SaturatingAdd(a: nat, b: nat, max: nat): nat { Min(a + b, max) }

  class ResponseParser {
    const config: Config
    var state: State
    var buf: Bytes
    var status: nat
    var headers: seq<Field>
    var body: Bytes
    var keepAlive: bool

    ghost function View(): Parser
      reads this
    {
      Parser(state, buf, status, headers, body, keepAlive)
    }

    ghost predicate Sound()
      reads this
    {
      Proper(config) && Fits(config, View())
    }

    /** Between calls a complete or close-delimited parser has no bytes left over. */
    ghost predicate Valid()
      reads this
    {
      Sound() && AtRest(View())
    }

    constructor (config: Config)
      requires Proper(config)
      ensures Valid() && View() == FRESH && this.config == config
    {
      this.config := config;
      state := InHead;
      buf := [];
      status := 0;
      headers := [];
      body := [];
      keepAlive := true;
    }

    /** push: completes, waits or fails exactly as driving the buffered and pushed bytes does. */
    method Push(data: Bytes) returns (r: Result<bool, HttpError>)
      requires Valid()
      modifies this
      ensures r.Ok? <==> HttpParsing.Push(config, old(View()), data).Ok?
      ensures r.Ok? ==> Valid() && Ok(View()) == HttpParsing.Push(config, old(View()), data)
      ensures r.Ok? ==> (r.value <==> state.Done?)
    {
      hide Step, Proper, Fits;
      ghost var p := View();
      FitsExtends(config, p, data);
      if HttpParsing.Push(config, p, data).Ok? { NothingLeftOver(config, Extend(p, data)); }
      if state.Done? {
        ClosedPush(config, p, data);
        if data == [] { return Ok(true); }
        return Err(UnexpectedBytes);
      }
      buf := buf + data;
      while true
        invariant Sound() && Drive(config, View()) == HttpParsing.Push(config, p, data)
        decreases |buf|
      {
        StepFits(config, View());
        var turn;
        match state {
          case InHead => turn := ParseHead();
          case InBody(framing, chunk) => turn := ParseBody(framing, chunk);
          case Done => turn := FinishTurn();
        }
        if turn.Err? { return Err(turn.error); }
        if !turn.value { return Ok(state.Done?); }
      }
    }

    /** A complete response accepts no further bytes. */
    method FinishTurn() returns (r: Result<bool, HttpError>)
      requires Sound() && state.Done?
      ensures DidTurn(Step(config, View()), r, View())
    {
      if buf != [] { return Err(UnexpectedBytes); }
      return Ok(false);
    }

    method ParseHead() returns (r: Result<bool, HttpError>)
      requires Sound() && state.InHead?
      modifies this
      ensures DidTurn(Step(config, old(View())), r, View())
    {
      hide ContentLength, KeepsAlive, IsChunked;
      ghost var p := View();
      assert config.parse(buf).Complete? ==> 0 < config.parse(buf).n <= |buf|;
      match config.parse(buf)
      case Partial =>
        return if |buf| > config.limits.maxHeadBytes then Err(TooLarge) else Ok(false);
      case TooManyHeaders =>
        return Err(TooLarge);
      case Invalid =>
        return Err(Malformed);
      case Complete(consumed, head) =>
        if consumed > config.limits.maxHeadBytes { return Err(TooLarge); }
        if head.status.None? { return Err(Malformed); }
        var code := head.status.value;
        buf := buf[consumed..];
        if code == 101 { return Err(Malformed); }
        if 100 <= code < 200 { return Ok(true); }
        keepAlive := KeepsAlive(head);
        var chunked := IsChunked(head);
        var length := FindContentLength(head.headers, CONTENT_LENGTH, config.usizeMax);
        if length.Err? { return Err(Malformed); }
        var framing: Option<Framing>;
        if config.headRequest || code == 204 || code == 304 {
          framing := None;
        } else if chunked {
          if length.value.Some? { keepAlive := false; }
          framing := Some(Chunked);
        } else if length.value.Some? {
          if length.value.value > config.limits.maxBodyBytes { return Err(TooLarge); }
          framing := Some(Length(length.value.value));
        } else {
          keepAlive := false;
          framing := Some(UntilClose);
        }
        status := code;
        headers := head.headers;
        state := if framing.None? || framing.value == Length(0) then Done else InBody(framing.value, Size);
        return Ok(true);
    }

    method ParseBody(framing: Framing, chunk: ChunkState) returns (r: Result<bool, HttpError>)
      requires Sound() && state == InBody(framing, chunk)
      modifies this
      ensures DidTurn(Step(config, old(View())), r, View())
    {
      hide SizeTurn, DataTurn, DataEndTurn, TrailersTurn, LengthTurn, UntilCloseTurn;
      match framing
      case Length(total) =>
        r := ParseLength(total);
      case UntilClose =>
        r := ParseUntilClose();
      case Chunked =>
        r := ParseChunk(chunk);
    }

    method ParseLength(total: nat) returns (r: Result<bool, HttpError>)
      requires Sound() && state.InBody? && state.framing == Length(total)
      modifies this
      ensures DidTurn(LengthTurn(old(View()), total), r, View())
    {
      var take := Min(total - |body|, |buf|);
      var bytes := buf[..take];
      buf := buf[take..];
      var appended := AppendBody(bytes);
      assert appended.Ok?;  // the head was refused when its length exceeds the limit
      if |body| == total {
        state := Done;
        return Ok(true);
      }
      return Ok(false);
    }

    method ParseUntilClose() returns (r: Result<bool, HttpError>)
      requires Sound() && state.InBody? && state.framing == UntilClose
      modifies this
      ensures DidTurn(UntilCloseTurn(config, old(View())), r, View())
    {
      var bytes := buf;
      buf := [];
      var appended := AppendBody(bytes);
      return if appended.Err? then Err(appended.error) else Ok(false);
    }

    method ParseChunk(chunk: ChunkState) returns (r: Result<bool, HttpError>)
      requires Sound() && state == InBody(Chunked, chunk)
      modifies this
      ensures DidTurn(Step(config, old(View())), r, View())
    {
      hide SizeTurn, DataTurn, FindCrlf;
      match chunk
      case Size =>
        r := ParseSize();
      case Data(remaining) =>
        r := ParseData(remaining);
      case DataEnd =>
        if |buf| < 2 { return Ok(false); }
        if !IsCrlf(buf, 0) { return Err(Malformed); }
        buf := buf[2..];
        state := InBody(Chunked, Size);
        return Ok(true);
      case Trailers =>
        var found := FindCrlf(buf);
        if found.None? { return if |buf| > config.limits.maxHeadBytes then Err(TooLarge) else Ok(false); }
        buf := buf[found.value + 2..];
        if found.value == 0 { state := Done; }
        return Ok(true);
    }

    method ParseSize() returns (r: Result<bool, HttpError>)
      requires Sound() && state == InBody(Chunked, Size)
      modifies this
      ensures DidTurn(SizeTurn(config, old(View())), r, View())
    {
      hide FindCrlf, ChunkSize;
      var found := FindCrlf(buf);
      if found.None? { return if |buf| > MAX_CHUNK_LINE then Err(Malformed) else Ok(false); }
      var line := buf[..found.value];
      buf := buf[found.value + 2..];
      var parsed := ChunkSize(line, config.usizeMax);
      if parsed.None? { return Err(Malformed); }
      var size := parsed.value;
      if size != 0 && SaturatingAdd(|body|, size, config.usizeMax) > config.limits.maxBodyBytes {
        return Err(TooLarge);
      }
      state := InBody(Chunked, if size == 0 then Trailers else Data(size));
      return Ok(true);
    }

    method ParseData(remaining: nat) returns (r: Result<bool, HttpError>)
      requires Sound() && state == InBody(Chunked, Data(remaining))
      modifies this
      ensures DidTurn(DataTurn(old(View()), remaining), r, View())
    {
      if buf == [] { return Ok(false); }
      var take := Min(remaining, |buf|);
      var bytes := buf[..take];
      buf := buf[take..];
      var appended := AppendBody(bytes);
      assert appended.Ok?;  // the size line was refused when the chunk exceeds the limit
      var left := remaining - take;
      state := InBody(Chunked, if left == 0 then DataEnd else Data(left));
      return Ok(true);
    }

    /** append_body: refuses bytes beyond the body limit. */
    method AppendBody(bytes: Bytes) returns (r: Result<(), HttpError>)
      modifies this`body
      ensures r.Err? <==> !Within(config, |old(body)| + |bytes|)
      ensures r == (if r.Err? then Err(TooLarge) else Ok(()))
      ensures body == if r.Ok? then old(body) + bytes else old(body)
    {
      if SaturatingAdd(|body|, |bytes|, config.usizeMax) > config.limits.maxBodyBytes { return Err(TooLarge); }
      body := body + bytes;
      return Ok(());
    }

    /** finish_on_close: only a close-delimited body, ended by close_notify, is completed by a close. */
    method FinishOnClose(closeNotify: bool) returns (r: Result<(), HttpError>)
      requires Valid()
      modifies this
      ensures Valid()
      ensures r.Ok? <==> old(state).Done? || (closeNotify && old(state).InBody? && old(state).framing.UntilClose?)
      ensures r.Ok? ==> state.Done?
      ensures r.Ok? && !old(state).Done? ==> !keepAlive && body == old(body) && headers == old(headers)
      ensures r.Err? || old(state).Done? ==> View() == old(View())
    {
      if state.Done? { return Ok(()); }
      if state.InBody? && state.framing.UntilClose? && closeNotify {
        var pending := buf;
        buf := [];
        var appended := AppendBody(pending);
        assert appended.Ok? && body + [] == body;
        keepAlive := false;
        state := Done;
        return Ok(());
      }
      return Err(Truncated);
    }

    /** take_response: hands out headers and body once complete. */
    method TakeResponse() returns (r: Option<HttpResponse>)
      modifies this
      ensures r.Some? <==> old(state).Done?
      ensures r.Some? ==> r.value == HttpResponse(old(status), old(headers), old(body), old(keepAlive))
      ensures r.Some? ==> headers == [] && body == [] && state == old(state) && buf == old(buf)
      ensures r.None? ==> View() == old(View())
    {
      if !state.Done? { return None; }
      r := Some(HttpResponse(status, headers, body, keepAlive));
      headers, body := [], [];
    }
  }

  lemma ClosedPush(c: Config, p: Parser, data: Bytes)
    requires Proper(c) && Fits(c, p) && p.state.Done? && p.buf == [] && Fits(c, Extend(p, data))
    ensures Drive(c, Extend(p, data)) == if data == [] then Ok(p) else Err(UnexpectedBytes)
  {
    assert p.buf + data == data;
  }

  /** After a successful push a complete or close-delimited parser has no bytes left over. */
  lemma {:induction false} NothingLeftOver(c: Config, p: Parser)
    requires Proper(c) && Fits(c, p) && Drive(c, p).Ok?
    ensures AtRest(Drive(c, p).value)
    decreases |p.buf|
  {
    hide HeadTurn, SizeTurn, TrailersTurn, DataTurn, DataEndTurn;
    StepFits(c, p);
    if Step(c, p).Go? {
      NothingLeftOver(c, Step(c, p).next);
    } else if p.state.InHead? || (p.state.InBody? && p.state.framing.Chunked?) {
      WaitKeeps(c, p);
    }
  }
}
