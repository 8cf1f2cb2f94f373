/** What the incremental HTTP/1.1 response parser does, one turn of its loop at a time, and that the way
    a response is cut into pushes does not change what is parsed. */
module HttpParsing {
  import opened Outcomes
  import opened ByteValues
  import opened HttpText

  const MAX_CHUNK_LINE: nat := 1024

  datatype Head = Head(status: Option<nat>, version: Option<nat>, headers: seq<Field>)

  /** The answer of the head parser, which is a library. */
  datatype HeadParse = Partial | Complete(n: nat, head: Head) | TooManyHeaders | Invalid

  datatype Limits = Limits(maxHeadBytes: nat, maxBodyBytes: nat)

  /** Limits, whether the request was a HEAD, the word size, and the head parser. */
  datatype Config = Config(limits: Limits, headRequest: bool, usizeMax: nat, parse: Bytes -> HeadParse)

  datatype HttpError = TooLarge | Malformed | UnexpectedBytes | Truncated

  datatype Framing = Length(total: nat) | Chunked | UntilClose

  datatype ChunkState = Size | Data(remaining: nat) | DataEnd | Trailers

  datatype State = InHead | InBody(framing: Framing, chunk: ChunkState) | Done

  datatype Parser = Parser(
    state: State, buf: Bytes, status: nat, headers: seq<Field>, body: Bytes, keepAlive: bool)

  const FRESH := Parser(InHead, [], 0, [], [], true)

  /** A head parser looks at the head and no further: what it accepted or refused stays so when bytes
      follow, and an accepted head is accepted on its own. */
  ghost predicate PrefixStable(parse: Bytes -> HeadParse) {
    && (forall a: Bytes :: parse(a).Complete? ==> 0 < parse(a).n <= |a|)
    && (forall a: Bytes, b: Bytes :: parse(a).Complete? ==> parse(a + b) == parse(a))
    && (forall a: Bytes, b: Bytes :: parse(a).TooManyHeaders? || parse(a).Invalid? ==>
          parse(a + b).TooManyHeaders? || parse(a + b).Invalid?)
    && (forall a: Bytes :: parse(a).Complete? ==> parse(a[..Min(parse(a).n, |a|)]) == parse(a))
  }

  /** The head parser is stable and the body limit is a machine word. */
  ghost predicate Proper(c: Config) {
    && PrefixStable(c.parse)
    && c.limits.maxBodyBytes <= c.usizeMax
  }

  /** The body limit as the code tests it, on a sum that saturates at the largest word. */
  predicate Within(c: Config, n: nat) { Min(n, c.usizeMax) <= c.limits.maxBodyBytes }

  /* ----- reachable parsers ----- */

  /** The body is within its limit, and what is still owed to it is positive and fits. */
  predicate Fits(c: Config, p: Parser) {
    match p.state
    case InHead => p.body == []
    case Done => Within(c, |p.body|)
    case InBody(Length(total), _) => |p.body| < total <= c.limits.maxBodyBytes
    case InBody(UntilClose, _) => Within(c, |p.body|)
    case InBody(Chunked, Data(remaining)) => 0 < remaining && Within(c, |p.body| + remaining)
    case InBody(Chunked, _) => Within(c, |p.body|)
  }

  /* ----- one turn ----- */

  /** The loop goes on, or the push ends waiting for bytes, or it fails. */
  datatype Turn = Go(next: Parser) | Wait(rest: Parser) | Fail(error: HttpError)

  const CONNECTION := Ascii("connection")
  const CLOSE := Ascii("close")
  const KEEP_ALIVE := Ascii("keep-alive")
  const TRANSFER_ENCODING := Ascii("transfer-encoding")
  const CHUNKED := Ascii("chunked")
  const CONTENT_LENGTH := Ascii("content-length")

  function KeepsAlive(head: Head): bool {
    var connection := FieldValue(head.headers, CONNECTION);
    var version := if head.version.Some? then head.version.value else 1;
    if connection.Some? && HasToken(LowerCase(connection.value), CLOSE) then false
    else if connection.Some? && HasToken(LowerCase(connection.value), KEEP_ALIVE) then true
    else version >= 1
  }

  predicate IsChunked(head: Head) {
    var encoding := FieldValue(head.headers, TRANSFER_ENCODING);
    encoding.Some? && HasToken(LowerCase(encoding.value), CHUNKED)
  }

  /** Message framing, section 6.3 of RFC 9112: chunked wins over a length and ends the session. */
  function Framed(c: Config, p: Parser, status: nat, head: Head): Turn {
    var keep := KeepsAlive(head);
    match ContentLength(head.headers, CONTENT_LENGTH, c.usizeMax)
    case Err(_) => Fail(Malformed)
    case Ok(length) =>
      var q := p.(status := status, headers := head.headers);
      if c.headRequest || status == 204 || status == 304 then Go(q.(keepAlive := keep, state := Done))
      else if IsChunked(head) then
        Go(q.(keepAlive := keep && length.None?, state := InBody(Chunked, Size)))
      else if length.Some? then
        if length.value > c.limits.maxBodyBytes then Fail(TooLarge)
        else Go(q.(keepAlive := keep, state := if length.value == 0 then Done else InBody(Length(length.value), Size)))
      else Go(q.(keepAlive := false, state := InBody(UntilClose, Size)))
  }

  function AfterHead(c: Config, p: Parser, n: nat, head: Head): Turn
    requires n <= |p.buf|
  {
    var q := p.(buf := p.buf[n..]);
    if n > c.limits.maxHeadBytes then Fail(TooLarge)
    else if head.status.None? then Fail(Malformed)
    else if head.status.value == 101 then Fail(Malformed)
    else if 100 <= head.status.value < 200 then Go(q)
    else Framed(c, q, head.status.value, head)
  }

  function HeadTurn(c: Config, p: Parser): Turn {
    match c.parse(p.buf)
    case Partial => if |p.buf| > c.limits.maxHeadBytes then Fail(TooLarge) else Wait(p)
    case Complete(n, head) => if n <= |p.buf| then AfterHead(c, p, n, head) else Fail(Malformed)
    case TooManyHeaders => Fail(TooLarge)
    case Invalid => Fail(Malformed)
  }

  function LengthTurn(p: Parser, total: nat): Turn
    requires |p.body| < total
  {
    var take := Min(total - |p.body|, |p.buf|);
    Took(p, p.buf[take..], p.body + p.buf[..take], total)
  }

  /** The turn after body bytes were taken from the buffer. */
  function Took(p: Parser, buf: Bytes, body: Bytes, total: nat): Turn {
    var q := p.(buf := buf, body := body);
    if |body| == total then Go(q.(state := Done)) else Wait(q)
  }

  function UntilCloseTurn(c: Config, p: Parser): Turn {
    if !Within(c, |p.body| + |p.buf|) then Fail(TooLarge)
    else Wait(p.(buf := [], body := p.body + p.buf))
  }

  function InChunk(p: Parser, chunk: ChunkState): Parser { p.(state := InBody(Chunked, chunk)) }

  function SizeTurn(c: Config, p: Parser): Turn {
    match FindCrlf(p.buf)
    case None => if |p.buf| > MAX_CHUNK_LINE then Fail(Malformed) else Wait(p)
    case Some(lineEnd) =>
      var q := p.(buf := p.buf[lineEnd + 2..]);
      match ChunkSize(p.buf[..lineEnd], c.usizeMax)
      case None => Fail(Malformed)
      case Some(size) =>
        if size == 0 then Go(InChunk(q, Trailers))
        else if !Within(c, |p.body| + size) then Fail(TooLarge)
        else Go(InChunk(q, Data(size)))
  }

  function DataTurn(p: Parser, remaining: nat): Turn {
    if p.buf == [] then Wait(p)
    else
      var take := Min(remaining, |p.buf|);
      var q := p.(buf := p.buf[take..], body := p.body + p.buf[..take]);
      Go(InChunk(q, if remaining == take then DataEnd else Data(remaining - take)))
  }

  function DataEndTurn(p: Parser): Turn {
    if |p.buf| < 2 then Wait(p)
    else if !IsCrlf(p.buf, 0) then Fail(Malformed)
    else Go(InChunk(p.(buf := p.buf[2..]), Size))
  }

  function TrailersTurn(c: Config, p: Parser): Turn {
    match FindCrlf(p.buf)
    case None => if |p.buf| > c.limits.maxHeadBytes then Fail(TooLarge) else Wait(p)
    case Some(lineEnd) =>
      var q := p.(buf := p.buf[lineEnd + 2..]);
      Go(if lineEnd == 0 then q.(state := Done) else q)
  }

  function Step(c: Config, p: Parser): Turn
    requires Fits(c, p)
  {
    match p.state
    case InHead => HeadTurn(c, p)
    case Done => if p.buf == [] then Wait(p) else Fail(UnexpectedBytes)
    case InBody(Length(total), _) => LengthTurn(p, total)
    case InBody(UntilClose, _) => UntilCloseTurn(c, p)
    case InBody(Chunked, Size) => SizeTurn(c, p)
    case InBody(Chunked, Data(remaining)) => DataTurn(p, remaining)
    case InBody(Chunked, DataEnd) => DataEndTurn(p)
    case InBody(Chunked, Trailers) => TrailersTurn(c, p)
  }

  /** Every turn keeps the body within its limit and what is owed to it positive; a turn after which
      the loop goes on has shortened the buffer, or has completed the response. */
  lemma StepFits(c: Config, p: Parser)
    requires Proper(c) && Fits(c, p)
    ensures Step(c, p).Go? ==> Fits(c, Step(c, p).next)
    ensures Step(c, p).Go? ==> |Step(c, p).next.buf| < |p.buf|
    ensures Step(c, p).Wait? ==> Fits(c, Step(c, p).rest)
  {
    hide HeadTurn, SizeTurn, TrailersTurn;
    match p.state
    case InHead => HeadFits(c, p);
    case InBody(Chunked, Size) => SizeFits(c, p);
    case InBody(Chunked, Trailers) => TrailersFits(c, p);
    case _ =>
  }

  lemma HeadFits(c: Config, p: Parser)
    requires Proper(c) && p.state.InHead? && p.body == []
    ensures var t := HeadTurn(c, p);
      && (t.Go? ==> Fits(c, t.next) && |t.next.buf| < |p.buf|)
      && (t.Wait? ==> t.rest == p)
  {
    hide ContentLength, KeepsAlive, IsChunked;
    assert c.parse(p.buf).Complete? ==> 0 < c.parse(p.buf).n <= |p.buf|;
  }

  lemma SizeFits(c: Config, p: Parser)
    requires p.state == InBody(Chunked, Size) && Within(c, |p.body|)
    ensures var t := SizeTurn(c, p);
      && (t.Go? ==> Fits(c, t.next) && |t.next.buf| < |p.buf|)
      && (t.Wait? ==> t.rest == p)
  {
    hide ChunkSize, FindCrlf;
  }

  lemma TrailersFits(c: Config, p: Parser)
    requires p.state == InBody(Chunked, Trailers) && Within(c, |p.body|)
    ensures var t := TrailersTurn(c, p);
      && (t.Go? ==> Fits(c, t.next) && |t.next.buf| < |p.buf|)
      && (t.Wait? ==> t.rest == p)
  {
    hide FindCrlf;
  }

  /* ----- a push ----- */

  ghost function Drive(c: Config, p: Parser): Result<Parser, HttpError>
    requires Proper(c) && Fits(c, p)
    decreases |p.buf|
  {
    StepFits(c, p);
    match Step(c, p)
    case Go(next) => Drive(c, next)
    case Wait(rest) => Ok(rest)
    case Fail(error) => Err(error)
  }

  function Extend(p: Parser, data: Bytes): Parser { p.(buf := p.buf + data) }

  ghost function Push(c: Config, p: Parser, data: Bytes): Result<Parser, HttpError>
    requires Proper(c) && Fits(c, p)
  {
    Drive(c, Extend(p, data))
  }

  lemma {:induction false} DriveFits(c: Config, p: Parser)
    requires Proper(c) && Fits(c, p)
    ensures Drive(c, p).Ok? ==> Fits(c, Drive(c, p).value)
    decreases |p.buf|
  {
    hide Step, Proper, Fits;
    StepFits(c, p);
    if Step(c, p).Go? { DriveFits(c, Step(c, p).next); }
  }

  /** The same parser, or failure in both cases. */
  predicate Same(a: Result<Parser, HttpError>, b: Result<Parser, HttpError>) {
    a.Ok? == b.Ok? && (a.Ok? ==> a == b)
  }

  /* ----- lines within their limits ----- */

  /** If the parser is at a chunk-size or trailer line that is complete, the line with its CR fits. */
  predicate LineFits(c: Config, p: Parser) {
    && (p.state == InBody(Chunked, Size) && FindCrlf(p.buf).Some? ==> FindCrlf(p.buf).value + 1 <= MAX_CHUNK_LINE)
    && (p.state == InBody(Chunked, Trailers) && FindCrlf(p.buf).Some? ==>
          FindCrlf(p.buf).value + 1 <= c.limits.maxHeadBytes)
  }

  /** Every chunk-size and trailer line met while parsing the buffer fits. */
  ghost predicate LinesFit(c: Config, p: Parser)
    requires Proper(c) && Fits(c, p)
    decreases |p.buf|
  {
    StepFits(c, p);
    LineFits(c, p) && (Step(c, p).Go? ==> LinesFit(c, Step(c, p).next))
  }

  /* ----- a turn with more bytes behind it ----- */

  /** A failing turn fails with more bytes too, when lines fit. */
  lemma FailExtends(c: Config, p: Parser, b: Bytes)
    requires Proper(c) && Fits(c, p) && Step(c, p).Fail? && LineFits(c, Extend(p, b))
    ensures Fits(c, Extend(p, b)) && Step(c, Extend(p, b)).Fail?
  {
    hide ContentLength, KeepsAlive, IsChunked, ChunkSize, FindCrlf;
    var e := Extend(p, b);
    match p.state
    case InHead => HeadFailExtends(c, p, b);
    case InBody(Chunked, Size) =>
      LineExtends(p.buf, b);
    case InBody(Chunked, Trailers) =>
      LineExtends(p.buf, b);
    case _ =>
  }

  lemma LineExtends(a: Bytes, b: Bytes)
    ensures FindCrlf(a).Some? ==> FindCrlf(a + b) == FindCrlf(a) && (a + b)[..FindCrlf(a).value] == a[..FindCrlf(a).value]
    ensures FindCrlf(a).Some? ==> (a + b)[FindCrlf(a).value + 2..] == a[FindCrlf(a).value + 2..] + b
    ensures FindCrlf(a).None? && FindCrlf(a + b).Some? ==> FindCrlf(a + b).value + 1 >= |a|
  {
    hide FindCrlf;
    if FindCrlf(a).Some? {
      FindCrlfStable(a, b);
    } else if FindCrlf(a + b).Some? {
      FindCrlfLate(a, b);
    }
  }

  lemma HeadFailExtends(c: Config, p: Parser, b: Bytes)
    requires PrefixStable(c.parse) && HeadTurn(c, p).Fail?
    ensures HeadTurn(c, Extend(p, b)).Fail?
  {
    hide ContentLength, KeepsAlive, IsChunked;
    var x := p.buf + b;
    assert c.parse(p.buf).Complete? ==> c.parse(x) == c.parse(p.buf);
    if c.parse(p.buf).Partial? && c.parse(x).Complete? {
      var n := c.parse(x).n;
      HeadIsLate(c.parse, p.buf, b);
    }
  }

  /** A head that more bytes complete reaches past the bytes before them. */
  lemma HeadIsLate(parse: Bytes -> HeadParse, a: Bytes, b: Bytes)
    requires PrefixStable(parse) && parse(a).Partial? && parse(a + b).Complete?
    ensures parse(a + b).n > |a|
  {
    var n := parse(a + b).n;
    assert 0 < n <= |a + b|;
    assert parse((a + b)[..n]) == parse(a + b);
    var k := Min(n, |a|);
    assert (a + b)[..k] + a[k..] == a;
  }

  lemma Slices(a: Bytes, b: Bytes, k: nat)
    requires k <= |a|
    ensures (a + b)[k..] == a[k..] + b && (a + b)[..k] == a[..k]
  {}

  lemma SlicesPast(x: Bytes, a: Bytes, b: Bytes, k: nat)
    requires k <= |b|
    ensures (a + b)[|a| + k..] == b[k..] && x + (a + b)[..|a| + k] == (x + a) + b[..k]
  {}

  lemma FramedExtends(c: Config, p: Parser, status: nat, head: Head, b: Bytes)
    requires Framed(c, p, status, head).Go?
    ensures Framed(c, Extend(p, b), status, head) == Go(Extend(Framed(c, p, status, head).next, b))
  {
    hide ContentLength, KeepsAlive, IsChunked;
  }

  lemma HeadGoes(c: Config, p: Parser, b: Bytes)
    requires PrefixStable(c.parse) && HeadTurn(c, p).Go?
    ensures HeadTurn(c, Extend(p, b)) == Go(Extend(HeadTurn(c, p).next, b))
  {
    hide Framed;
    assert c.parse(p.buf + b) == c.parse(p.buf);
    var n, head := c.parse(p.buf).n, c.parse(p.buf).head;
    Slices(p.buf, b, n);
    if !(100 <= head.status.value < 200) {
      FramedExtends(c, p.(buf := p.buf[n..]), head.status.value, head, b);
    }
  }

  lemma LengthGoes(p: Parser, total: nat, b: Bytes)
    requires |p.body| < total && LengthTurn(p, total).Go?
    ensures LengthTurn(Extend(p, b), total) == Go(Extend(LengthTurn(p, total).next, b))
  {
    Slices(p.buf, b, total - |p.body|);
  }

  lemma SizeGoes(c: Config, p: Parser, b: Bytes)
    requires SizeTurn(c, p).Go?
    ensures SizeTurn(c, Extend(p, b)) == Go(Extend(SizeTurn(c, p).next, b))
  {
    hide ChunkSize, FindCrlf;
    LineExtends(p.buf, b);
  }

  lemma DataGoes(p: Parser, remaining: nat, b: Bytes)
    requires DataTurn(p, remaining).Go? && remaining <= |p.buf|
    ensures DataTurn(Extend(p, b), remaining) == Go(Extend(DataTurn(p, remaining).next, b))
  {
    Slices(p.buf, b, remaining);
  }

  lemma DataEndGoes(p: Parser, b: Bytes)
    requires DataEndTurn(p).Go?
    ensures DataEndTurn(Extend(p, b)) == Go(Extend(DataEndTurn(p).next, b))
  {
    Slices(p.buf, b, 2);
  }

  lemma TrailersGo(c: Config, p: Parser, b: Bytes)
    requires TrailersTurn(c, p).Go?
    ensures TrailersTurn(c, Extend(p, b)) == Go(Extend(TrailersTurn(c, p).next, b))
  {
    hide FindCrlf;
    LineExtends(p.buf, b);
  }

  predicate InData(p: Parser) {
    p.state.InBody? && p.state.framing.Chunked? && p.state.chunk.Data?
  }

  /** Except for chunk data that runs out of bytes, a turn that goes on does the same with more bytes. */
  lemma GoExtends(c: Config, p: Parser, b: Bytes)
    requires Proper(c) && Fits(c, p) && Step(c, p).Go?
    requires InData(p) ==> p.state.chunk.remaining <= |p.buf|
    ensures Fits(c, Extend(p, b)) && Step(c, Extend(p, b)) == Go(Extend(Step(c, p).next, b))
  {
    hide HeadTurn, LengthTurn, SizeTurn, DataTurn, DataEndTurn, TrailersTurn;
    match p.state
    case InHead => HeadGoes(c, p, b);
    case InBody(Length(total), _) => LengthGoes(p, total, b);
    case InBody(Chunked, Size) => SizeGoes(c, p, b);
    case InBody(Chunked, Data(remaining)) => DataGoes(p, remaining, b);
    case InBody(Chunked, DataEnd) => DataEndGoes(p, b);
    case InBody(Chunked, Trailers) => TrailersGo(c, p, b);
    case _ =>
  }

  lemma DataRunsOut(p: Parser, remaining: nat)
    requires p.buf != [] && remaining > |p.buf|
    ensures DataTurn(p, remaining) == Go(InChunk(p.(buf := [], body := p.body + p.buf), Data(remaining - |p.buf|)))
  {
    assert p.buf[|p.buf|..] == [] && p.buf[..|p.buf|] == p.buf;
  }

  lemma DataGoesOn(p: Parser, remaining: nat, b: Bytes)
    requires remaining > |p.buf| && b != []
    ensures DataTurn(p.(buf := b, body := p.body + p.buf), remaining - |p.buf|)
         == DataTurn(p.(buf := p.buf + b), remaining)
    ensures DataTurn(p.(buf := p.buf + b), remaining).Go?
  {
    var take := Min(remaining - |p.buf|, |b|);
    SlicesPast(p.body, p.buf, b, take);
    assert Min(remaining, |p.buf + b|) == |p.buf| + take;
  }

  lemma SameData(p: Parser, q: Parser, chunk: ChunkState, remaining: nat)
    requires q == InChunk(p, chunk) && p.buf != []
    ensures DataTurn(q, remaining) == DataTurn(p, remaining)
  {
    hide Min;
  }

  /** Chunk data that runs out of bytes: taking it in two turns is taking it in one. */
  lemma DataTwice(p: Parser, remaining: nat, b: Bytes)
    requires p.buf != [] && remaining > |p.buf| && b != []
    ensures DataTurn(p, remaining) == Go(InChunk(p.(buf := [], body := p.body + p.buf), Data(remaining - |p.buf|)))
    ensures DataTurn(Extend(DataTurn(p, remaining).next, b), remaining - |p.buf|)
         == DataTurn(Extend(p, b), remaining)
    ensures DataTurn(Extend(p, b), remaining).Go?
  {
    hide DataTurn;
    DataRunsOut(p, remaining);
    DataGoesOn(p, remaining, b);
    assert [] + b == b;
    SameData(p.(buf := b, body := p.body + p.buf), Extend(DataTurn(p, remaining).next, b), Data(remaining - |p.buf|),
             remaining - |p.buf|);
  }

  lemma DataExtends(c: Config, p: Parser, b: Bytes)
    requires Proper(c) && Fits(c, p) && Step(c, p).Go? && b != []
    requires InData(p) && p.state.chunk.remaining > |p.buf|
    ensures var q := Step(c, p).next;
      && Fits(c, Extend(p, b)) && Fits(c, Extend(q, b)) && InData(q)
      && Step(c, Extend(q, b)) == Step(c, Extend(p, b)) && Step(c, Extend(p, b)).Go?
  {
    hide DataTurn, HeadTurn, SizeTurn, TrailersTurn, LengthTurn, UntilCloseTurn, DataEndTurn;
    DataNeedsBytes(p, p.state.chunk.remaining);
    DataTwice(p, p.state.chunk.remaining, b);
  }

  lemma DataNeedsBytes(p: Parser, remaining: nat)
    requires DataTurn(p, remaining).Go?
    ensures p.buf != []
  {}

  lemma LengthWaits(p: Parser, total: nat, b: Bytes)
    requires |p.body| < total && LengthTurn(p, total).Wait?
    ensures LengthTurn(p, total).rest == p.(buf := [], body := p.body + p.buf) && |p.body + p.buf| < total
    ensures LengthTurn(Extend(LengthTurn(p, total).rest, b), total) == LengthTurn(Extend(p, b), total)
  {
    LengthRest(p, total);
    LengthTwice(p, total, b);
  }

  lemma LengthRest(p: Parser, total: nat)
    requires |p.body| < total && LengthTurn(p, total).Wait?
    ensures LengthTurn(p, total).rest == p.(buf := [], body := p.body + p.buf) && |p.body + p.buf| < total
  {
    assert p.buf[|p.buf|..] == [] && p.buf[..|p.buf|] == p.buf;
  }

  lemma LengthTwice(p: Parser, total: nat, b: Bytes)
    requires |p.body + p.buf| < total
    ensures LengthTurn(p.(buf := b, body := p.body + p.buf), total) == LengthTurn(Extend(p, b), total)
    ensures [] + b == b
  {
    hide Took;
    var q := p.(buf := b, body := p.body + p.buf);
    var take := Min(total - |q.body|, |b|);
    SlicesPast(p.body, p.buf, b, take);
    assert Min(total - |p.body|, |p.buf + b|) == |p.buf| + take;
    TookAlike(p, q, b[take..], q.body + b[..take], total);
    TookAlike(p, Extend(p, b), b[take..], q.body + b[..take], total);
  }

  lemma TookAlike(p: Parser, q: Parser, buf: Bytes, body: Bytes, total: nat)
    requires q == p.(buf := q.buf, body := q.body)
    ensures Took(q, buf, body, total) == Took(p, buf, body, total)
  {}

  lemma UntilCloseWaits(c: Config, p: Parser, b: Bytes)
    requires UntilCloseTurn(c, p).Wait?
    ensures UntilCloseTurn(c, Extend(UntilCloseTurn(c, p).rest, b)) == UntilCloseTurn(c, Extend(p, b))
  {
    assert [] + b == b && p.body + (p.buf + b) == (p.body + p.buf) + b;
  }

  /** A turn that waits has taken what it could: with more bytes it goes on as if they had been there. */
  lemma WaitExtends(c: Config, p: Parser, b: Bytes)
    requires Proper(c) && Fits(c, p) && Step(c, p).Wait?
    ensures var q := Step(c, p).rest;
      Fits(c, q) && Fits(c, Extend(p, b)) && Fits(c, Extend(q, b)) && Step(c, Extend(q, b)) == Step(c, Extend(p, b))
  {
    StepFits(c, p);
    var q := Step(c, p).rest;
    match p.state
    case InBody(Length(total), _) =>
      LengthWaits(p, total, b);
      hide LengthTurn;
    case InBody(UntilClose, _) =>
      UntilCloseWaits(c, p, b);
    case _ =>
      hide HeadTurn, SizeTurn, TrailersTurn, DataTurn, DataEndTurn;
      assert q == p by { WaitKeeps(c, p); }
  }

  lemma WaitKeeps(c: Config, p: Parser)
    requires Fits(c, p) && Step(c, p).Wait?
    requires p.state.InBody? ==> p.state.framing.Chunked?
    ensures Step(c, p).rest == p
  {
    hide ContentLength, KeepsAlive, IsChunked, ChunkSize, FindCrlf;
  }

  /* ----- split invariance ----- */

  /** What an accepted prefix leaves behind goes on with more bytes as if they had been there at once. */
  lemma {:induction false} DriveContinues(c: Config, p: Parser, b: Bytes)
    requires Proper(c) && Fits(c, p) && Drive(c, p).Ok?
    ensures Fits(c, Extend(p, b)) && Fits(c, Drive(c, p).value) && Fits(c, Extend(Drive(c, p).value, b))
    ensures Drive(c, Extend(p, b)) == Drive(c, Extend(Drive(c, p).value, b))
    decreases |p.buf|
  {
    hide Step, Proper, Fits;
    StepFits(c, p);
    FitsExtends(c, p, b);
    var e := Extend(p, b);
    match Step(c, p)
    case Wait(q) =>
      WaitExtends(c, p, b);
      DriveStep(c, e, Extend(q, b));
    case Go(q) =>
      DriveContinues(c, q, b);
      if InData(p) && p.state.chunk.remaining > |p.buf| {
        if b == [] {
          assert p.buf + b == p.buf && Extend(p, b) == p;
          assert q.buf + b == q.buf && Extend(q, b) == q;
        } else {
          DataExtends(c, p, b);
          DriveStep(c, e, Extend(q, b));
        }
      } else {
        GoExtends(c, p, b);
      }
    case Fail(_) =>
      assert false;
  }

  lemma DriveStep(c: Config, p: Parser, q: Parser)
    requires Proper(c) && Fits(c, p) && Fits(c, q) && Step(c, p) == Step(c, q)
    ensures Drive(c, p) == Drive(c, q)
  {
    hide Step, Proper, Fits;
  }

  /** Driving what is there and then the rest is driving everything at once. */
  lemma {:induction false} DriveExtends(c: Config, p: Parser, b: Bytes)
    requires Proper(c) && Fits(c, p) && Fits(c, Extend(p, b)) && LinesFit(c, Extend(p, b))
    ensures Drive(c, p).Err? ==> Drive(c, Extend(p, b)).Err?
    ensures Drive(c, p).Ok? ==>
      && Fits(c, Extend(Drive(c, p).value, b)) && LinesFit(c, Extend(Drive(c, p).value, b))
      && Drive(c, Extend(p, b)) == Drive(c, Extend(Drive(c, p).value, b))
    decreases |p.buf|
  {
    hide Step, Proper, Fits, LineFits;
    StepFits(c, p);
    var e := Extend(p, b);
    match Step(c, p)
    case Fail(_) =>
      FailExtends(c, p, b);
    case Wait(q) =>
      WaitExtends(c, p, b);
      DriveStep(c, e, Extend(q, b));
      WaitKeepsLines(c, p, b);
    case Go(q) =>
      if InData(p) && p.state.chunk.remaining > |p.buf| {
        if b == [] {
          assert p.buf + b == p.buf && Extend(p, b) == p;
          assert q.buf + b == q.buf && Extend(q, b) == q;
          DriveExtends(c, q, b);
        } else {
          DataExtends(c, p, b);
          DriveStep(c, e, Extend(q, b));
          StepFits(c, e);
          NoLineInData(c, Extend(q, b));
          DriveExtends(c, q, b);
        }
      } else {
        GoExtends(c, p, b);
        StepFits(c, e);
        DriveExtends(c, q, b);
      }
  }

  lemma WaitKeepsLines(c: Config, p: Parser, b: Bytes)
    requires Proper(c) && Fits(c, p) && Step(c, p).Wait?
    requires Fits(c, Extend(p, b)) && LinesFit(c, Extend(p, b))
    requires Fits(c, Extend(Step(c, p).rest, b)) && Step(c, Extend(Step(c, p).rest, b)) == Step(c, Extend(p, b))
    ensures LinesFit(c, Extend(Step(c, p).rest, b))
  {
    hide HeadTurn, SizeTurn, TrailersTurn, DataTurn, DataEndTurn, FindCrlf;
    if p.state.InBody? && !p.state.framing.Chunked? {
    } else {
      WaitKeeps(c, p);
    }
  }

  lemma NoLineInData(c: Config, p: Parser)
    requires Proper(c) && Fits(c, p) && Step(c, p).Go?
    requires InData(p)
    requires Fits(c, Step(c, p).next) && LinesFit(c, Step(c, p).next)
    ensures LinesFit(c, p)
  {
    hide Step, Proper, Fits;
  }

  /** Pushing a and then b. */
  ghost function PushTwo(c: Config, p: Parser, a: Bytes, b: Bytes): Result<Parser, HttpError>
    requires Proper(c) && Fits(c, p)
  {
    assert Fits(c, Extend(p, a));
    DriveFits(c, Extend(p, a));
    match Push(c, p, a)
    case Err(error) => Err(error)
    case Ok(q) => Push(c, q, b)
  }

  /** Pushing a and then b ends in the same parser as pushing both at once, or fails like it, for every
      stream whose chunk-size and trailer lines fit. */
  lemma SplitInvariance(c: Config, p: Parser, a: Bytes, b: Bytes)
    requires Proper(c) && Fits(c, p) && Fits(c, Extend(p, a + b)) && LinesFit(c, Extend(p, a + b))
    ensures Same(PushTwo(c, p, a, b), Push(c, p, a + b))
  {
    hide Step, Proper, Fits, Drive, LinesFit;
    assert p.buf + (a + b) == p.buf + a + b;
    assert Extend(Extend(p, a), b) == Extend(p, a + b);
    assert Fits(c, Extend(p, a)) by { FitsExtends(c, p, a); }
    DriveExtends(c, Extend(p, a), b);
  }

  /** Cutting a stream never makes the parser accept what one push refuses, or read it differently. */
  lemma CutsOnlyRefuse(c: Config, p: Parser, a: Bytes, b: Bytes)
    requires Proper(c) && Fits(c, p) && PushTwo(c, p, a, b).Ok?
    ensures Push(c, p, a + b) == PushTwo(c, p, a, b)
  {
    hide Step, Proper, Fits, Drive;
    assert p.buf + (a + b) == p.buf + a + b;
    assert Extend(Extend(p, a), b) == Extend(p, a + b);
    FitsExtends(c, p, a);
    DriveContinues(c, Extend(p, a), b);
  }

  lemma FitsExtends(c: Config, p: Parser, a: Bytes)
    requires Fits(c, p)
    ensures Fits(c, Extend(p, a))
  {}

  ghost function PushAll(c: Config, p: Parser, pieces: seq<Bytes>): Result<Parser, HttpError>
    requires Proper(c) && Fits(c, p)
    decreases |pieces|
  {
    if pieces == [] then Push(c, p, [])
    else
      assert Fits(c, Extend(p, pieces[0]));
      DriveFits(c, Extend(p, pieces[0]));
      match Push(c, p, pieces[0])
      case Err(error) => Err(error)
      case Ok(q) => PushAll(c, q, pieces[1..])
  }

  function Joined(pieces: seq<Bytes>): Bytes {
    if pieces == [] then [] else pieces[0] + Joined(pieces[1..])
  }

  /** However a response is cut into pushes, the parser ends in the same state. */
  lemma {:induction false} AnyChunkingSame(c: Config, p: Parser, pieces: seq<Bytes>)
    requires Proper(c) && Fits(c, p) && Fits(c, Extend(p, Joined(pieces))) && LinesFit(c, Extend(p, Joined(pieces)))
    ensures Same(PushAll(c, p, pieces), Push(c, p, Joined(pieces)))
    decreases |pieces|
  {
    hide Step, Proper, Fits, Drive, LinesFit;
    if pieces != [] {
      var a, b := pieces[0], Joined(pieces[1..]);
      assert p.buf + (a + b) == p.buf + a + b;
      assert Extend(Extend(p, a), b) == Extend(p, a + b);
      FitsExtends(c, p, a);
      DriveExtends(c, Extend(p, a), b);
      DriveFits(c, Extend(p, a));
      if Push(c, p, a).Ok? {
        AnyChunkingSame(c, Push(c, p, a).value, pieces[1..]);
      }
    }
  }

  /* ----- the condition is exact ----- */

  function Truncate(p: Parser, k: nat): Parser
    requires k <= |p.buf|
  {
    p.(buf := p.buf[..k])
  }

  /** Cut just before the LF of a line that does not fit, the parser has seen too much without a line
      end and fails. */
  lemma LongLineFails(c: Config, p: Parser) returns (cut: nat)
    requires Proper(c) && Fits(c, p) && !LineFits(c, p)
    ensures cut <= |p.buf| && Fits(c, Truncate(p, cut)) && Step(c, Truncate(p, cut)).Fail?
  {
    hide ChunkSize, FindCrlf;
    cut := FindCrlf(p.buf).value + 1;
    var t := p.buf[..cut];
    assert FindCrlf(t).None? by {
      assert FindCrlf(t).Some? ==> IsCrlf(p.buf, FindCrlf(t).value);
    }
  }

  lemma HeadTruncates(c: Config, p: Parser, cut: nat)
    requires PrefixStable(c.parse) && HeadTurn(c, p).Go? && cut <= |p.buf|
    requires |p.buf| - |HeadTurn(c, p).next.buf| <= cut
    ensures HeadTurn(c, Truncate(p, cut)).Go?
  {
    hide ContentLength, KeepsAlive, IsChunked;
    var n, t := c.parse(p.buf).n, p.buf[..cut];
    assert c.parse(p.buf[..n]) == c.parse(p.buf);
    assert t == p.buf[..n] + t[n..];
    assert c.parse(t) == c.parse(p.buf[..n]);
  }

  lemma LineTruncates(x: Bytes, cut: nat)
    requires FindCrlf(x).Some? && FindCrlf(x).value + 2 <= cut <= |x|
    ensures FindCrlf(x[..cut]) == FindCrlf(x)
    ensures x[..cut][..FindCrlf(x).value] == x[..FindCrlf(x).value]
  {
    hide FindCrlf;
    var t, i := x[..cut], FindCrlf(x).value;
    assert IsCrlf(t, i);
    var k := FindCrlf(t).value;
    assert IsCrlf(x, k);
  }

  /** A turn that goes on looks only at the bytes it consumes. */
  lemma GoTruncates(c: Config, p: Parser, cut: nat)
    requires Proper(c) && Fits(c, p) && Step(c, p).Go? && cut <= |p.buf|
    requires |p.buf| - |Step(c, p).next.buf| <= cut
    requires InData(p) ==> p.state.chunk.remaining <= cut
    ensures Fits(c, Truncate(p, cut)) && Step(c, Truncate(p, cut)).Go?
  {
    hide ContentLength, KeepsAlive, IsChunked, ChunkSize, FindCrlf, HeadTurn;
    match p.state
    case InHead => HeadTruncates(c, p, cut);
    case InBody(Chunked, Size) => LineTruncates(p.buf, cut);
    case InBody(Chunked, Trailers) => LineTruncates(p.buf, cut);
    case _ =>
  }

  /** A stream with a line that does not fit has a prefix that fails. */
  lemma {:induction false} SomePrefixFails(c: Config, p: Parser) returns (cut: nat)
    requires Proper(c) && Fits(c, p) && !LinesFit(c, p)
    ensures cut <= |p.buf| && Fits(c, Truncate(p, cut)) && Drive(c, Truncate(p, cut)).Err?
    decreases |p.buf|
  {
    hide Step, Proper, Fits, LineFits;
    StepFits(c, p);
    if !LineFits(c, p) {
      cut := LongLineFails(c, p);
    } else {
      var q := Step(c, p).next;
      var inner := SomePrefixFails(c, q);
      var used := |p.buf| - |q.buf|;
      cut := used + inner;
      DataIsWhole(c, p);
      GoTruncates(c, p, cut);
      var t, b := Truncate(p, cut), p.buf[cut..];
      assert Extend(t, b) == p by { assert p.buf[..cut] + p.buf[cut..] == p.buf; }
      GoExtends(c, t, b);
      SameCut(Step(c, t).next, q, b, inner);
    }
  }

  lemma SameCut(r: Parser, q: Parser, b: Bytes, inner: nat)
    requires Extend(r, b) == q && inner == |q.buf| - |b| && inner <= |q.buf|
    ensures r == Truncate(q, inner)
  {
    assert (r.buf + b)[..inner] == r.buf;
  }

  /** When a line lies behind chunk data, the buffer holds all of that data. */
  lemma DataIsWhole(c: Config, p: Parser)
    requires Proper(c) && Fits(c, p) && Step(c, p).Go? && Fits(c, Step(c, p).next) && !LinesFit(c, Step(c, p).next)
    ensures InData(p) ==> p.state.chunk.remaining == |p.buf| - |Step(c, p).next.buf|
  {
    hide HeadTurn, SizeTurn, TrailersTurn, LengthTurn;
  }

  /** The same for any number of pieces. */
  lemma {:induction false} PiecesOnlyRefuse(c: Config, p: Parser, pieces: seq<Bytes>)
    requires Proper(c) && Fits(c, p) && PushAll(c, p, pieces).Ok?
    ensures Push(c, p, Joined(pieces)) == PushAll(c, p, pieces)
    decreases |pieces|
  {
    hide Step, Proper, Fits, Drive;
    if pieces != [] {
      var a, b := pieces[0], Joined(pieces[1..]);
      FitsExtends(c, p, a);
      DriveFits(c, Extend(p, a));
      PiecesOnlyRefuse(c, Push(c, p, a).value, pieces[1..]);
      CutsOnlyRefuse(c, p, a, b);
    }
  }

  /** For every stream: every way of cutting it into pieces gives the same result exactly when one push refuses the
      stream, or every chunk-size line with its CR fits 1,024 bytes and every trailer line the head limit. Where
      it does not, some cut in two fails. */
  lemma SplitsAgreeExactly(c: Config, x: Bytes)
    requires Proper(c)
    ensures (forall pieces :: Joined(pieces) == x ==> Same(PushAll(c, FRESH, pieces), Push(c, FRESH, x)))
       <==> Push(c, FRESH, x).Err? || LinesFit(c, Extend(FRESH, x))
    ensures Push(c, FRESH, x).Ok? && !LinesFit(c, Extend(FRESH, x)) ==>
      exists i :: 0 <= i <= |x| && PushTwo(c, FRESH, x[..i], x[i..]).Err?
  {
    hide Step, Proper, Drive, LinesFit, PushAll, Joined;
    var e := Extend(FRESH, x);
    assert e.buf == x;
    if LinesFit(c, e) {
      forall pieces | Joined(pieces) == x ensures Same(PushAll(c, FRESH, pieces), Push(c, FRESH, x)) {
        AnyChunkingSame(c, FRESH, pieces);
      }
    } else if Push(c, FRESH, x).Err? {
      forall pieces | Joined(pieces) == x ensures Same(PushAll(c, FRESH, pieces), Push(c, FRESH, x)) {
        if PushAll(c, FRESH, pieces).Ok? { PiecesOnlyRefuse(c, FRESH, pieces); }
      }
    } else {
      var i := SomePrefixFails(c, e);
      assert Extend(FRESH, x[..i]) == Truncate(e, i);
      assert PushTwo(c, FRESH, x[..i], x[i..]).Err?;
      FirstPieceFails(c, x, i);
      assert !Same(PushAll(c, FRESH, [x[..i], x[i..]]), Push(c, FRESH, x));
    }
  }

  lemma FirstPieceFails(c: Config, x: Bytes, i: nat)
    requires Proper(c) && i <= |x| && Push(c, FRESH, x[..i]).Err?
    ensures Joined([x[..i], x[i..]]) == x && PushAll(c, FRESH, [x[..i], x[i..]]).Err?
  {
    hide Step, Proper, Drive;
    var pieces := [x[..i], x[i..]];
    assert pieces[1..] == [x[i..]] && pieces[1..][1..] == [];
    assert Joined(pieces[1..]) == x[i..] + Joined([]) == x[i..];
    assert x[..i] + x[i..] == x;
  }
}
