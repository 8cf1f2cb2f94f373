/** The chunked transfer coding, section 7.1 of RFC 9112: parsing the encoding of a list of chunks gives
    their concatenation, in one push or in any number of pushes. */
module HttpChunks {
  import opened Outcomes
  import opened ByteValues
  import opened HttpText
  import opened HttpParsing

  const CRLF: Bytes := [CR, LF]

  function LastChunk(): Bytes { Hex(0) + CRLF + CRLF }

  function ChunkedBody(chunks: seq<Bytes>): Bytes {
    if chunks == [] then LastChunk()
    else Hex(|chunks[0]|) + CRLF + (chunks[0] + (CRLF + ChunkedBody(chunks[1..])))
  }

  /** Non-empty chunks that fit what is left of the body limit. */
  ghost predicate Sendable(c: Config, p: Parser, chunks: seq<Bytes>) {
    && Proper(c) && p.state == InBody(Chunked, Size)
    && (forall i :: 0 <= i < |chunks| ==> chunks[i] != [])
    && |p.body| + |Joined(chunks)| <= c.limits.maxBodyBytes
  }

  /** A size line with its line end is read as its number. */
  lemma SizeLineStep(c: Config, p: Parser, n: nat, rest: Bytes)
    requires p.state == InBody(Chunked, Size) && p.buf == Hex(n) + CRLF + rest && n <= c.usizeMax
    requires |p.body| + n <= c.limits.maxBodyBytes
    ensures SizeTurn(c, p) == Go(InChunk(p.(buf := rest), if n == 0 then Trailers else Data(n)))
    ensures FindCrlf(p.buf) == Some(|Hex(n)|)
  {
    hide FindCrlf, ChunkSize, Hex;
    HexBack(n);
    FirstLine(Hex(n), rest);
    ChunkSizeOfHex(n, c.usizeMax);
    assert p.buf[..|Hex(n)|] == Hex(n) && p.buf[|Hex(n)| + 2..] == rest;
  }

  lemma DataStep(p: Parser, data: Bytes, rest: Bytes)
    requires data != [] && p.buf == data + rest
    ensures DataTurn(p, |data|) == Go(InChunk(p.(buf := rest, body := p.body + data), DataEnd))
  {
    assert p.buf[..|data|] == data && p.buf[|data|..] == rest;
  }

  lemma DataEndStep(p: Parser, rest: Bytes)
    requires p.buf == CRLF + rest
    ensures DataEndTurn(p) == Go(InChunk(p.(buf := rest), Size))
  {
    assert p.buf[2..] == rest;
  }

  /** The parser after one whole chunk. */
  function AfterChunk(p: Parser, data: Bytes, rest: Bytes): Parser {
    InChunk(p.(buf := rest, body := p.body + data), Size)
  }

  lemma WholeChunk(c: Config, p: Parser, data: Bytes, rest: Bytes)
    requires Proper(c) && p.state == InBody(Chunked, Size) && data != []
    requires p.buf == Hex(|data|) + CRLF + (data + (CRLF + rest))
    requires |p.body| + |data| <= c.limits.maxBodyBytes
    ensures Fits(c, p) && Fits(c, AfterChunk(p, data, rest))
    ensures Drive(c, p) == Drive(c, AfterChunk(p, data, rest))
    ensures |Hex(|data|)| < MAX_CHUNK_LINE && LinesFit(c, AfterChunk(p, data, rest)) ==> LinesFit(c, p)
  {
    hide SizeTurn, DataTurn, DataEndTurn, Hex, FindCrlf, Proper;
    assert |data| <= c.usizeMax by { ProperWord(c); }
    SizeLineStep(c, p, |data|, data + (CRLF + rest));
    var q := InChunk(p.(buf := data + (CRLF + rest)), Data(|data|));
    DataStep(q, data, CRLF + rest);
    var r := InChunk(q.(buf := CRLF + rest, body := q.body + data), DataEnd);
    DataEndStep(r, rest);
    var s := AfterChunk(p, data, rest);
    assert Drive(c, p) == Drive(c, q) && Drive(c, q) == Drive(c, r) && Drive(c, r) == Drive(c, s);
    assert LinesFit(c, s) ==> LinesFit(c, r);
    assert LinesFit(c, r) ==> LinesFit(c, q);
  }

  lemma ProperWord(c: Config)
    requires Proper(c)
    ensures c.limits.maxBodyBytes <= c.usizeMax
  {}

  lemma TrailerStep(c: Config, p: Parser)
    requires p.buf == CRLF
    ensures TrailersTurn(c, p) == Go(p.(buf := [], state := Done)) && FindCrlf(p.buf) == Some(0)
  {
    assert IsCrlf(p.buf, 0);
  }

  lemma FinalChunk(c: Config, p: Parser)
    requires Proper(c) && p.state == InBody(Chunked, Size) && p.buf == LastChunk()
    requires |p.body| <= c.limits.maxBodyBytes
    ensures Fits(c, p) && Drive(c, p) == Ok(p.(state := Done, buf := []))
    ensures |Hex(0)| < MAX_CHUNK_LINE && c.limits.maxHeadBytes >= 1 ==> LinesFit(c, p)
  {
    hide SizeTurn, TrailersTurn, Hex, FindCrlf, Proper;
    SizeLineStep(c, p, 0, CRLF);
    var q := InChunk(p.(buf := CRLF), Trailers);
    TrailerStep(c, q);
    var d := q.(buf := [], state := Done);
    assert Drive(c, p) == Drive(c, q) && Drive(c, q) == Drive(c, d);
    assert Drive(c, d) == Ok(d);
    assert LinesFit(c, d);
    assert c.limits.maxHeadBytes >= 1 ==> LinesFit(c, q);
  }

  /** Parsing the chunked encoding of a list of chunks appends their concatenation and completes. */
  lemma {:induction false} ChunkedBodyParses(c: Config, p: Parser, chunks: seq<Bytes>)
    requires Sendable(c, p, chunks) && p.buf == ChunkedBody(chunks)
    ensures Fits(c, p)
    ensures Drive(c, p) == Ok(p.(state := Done, buf := [], body := p.body + Joined(chunks)))
    decreases |chunks|
  {
    hide Drive, Hex, Proper;
    if chunks == [] {
      FinalChunk(c, p);
      assert p.body + [] == p.body;
    } else {
      var data, rest := chunks[0], ChunkedBody(chunks[1..]);
      WholeChunk(c, p, data, rest);
      ChunkedBodyParses(c, AfterChunk(p, data, rest), chunks[1..]);
      assert p.body + data + Joined(chunks[1..]) == p.body + Joined(chunks);
    }
  }

  /* ----- what a chunked body must not be ----- */

  /** Text that is no hex number. */
  ghost predicate NoNumber(line: Bytes) {
    && (forall i :: 0 <= i < |line| ==> line[i] != CR && line[i] != SEMICOLON && !IsSpace(line[i]))
    && !(line != [] && AllHex(line))
  }

  lemma NoNumberNoSize(line: Bytes, usizeMax: nat)
    requires NoNumber(line)
    ensures ChunkSize(line, usizeMax) == None
  {
    hide Numeral, Trim, IndexOf, IsSpace, IsHex;
    NoSeparator(line, SEMICOLON);
    assert line[..|line|] == line;
    if line == [] { TrimEmpty(); } else { TrimNothing(line); }
  }

  lemma TrimEmpty()
    ensures Trim([]) == []
  {}

  /** A size line without a number is refused, and so is a chunk that would exceed the body limit. */
  lemma BadSizesAreRefused(c: Config, p: Parser, line: Bytes, rest: Bytes)
    requires Proper(c) && p.state == InBody(Chunked, Size) && |p.body| <= c.limits.maxBodyBytes
    requires p.buf == line + CRLF + rest
    requires NoNumber(line)
             || exists n: nat :: line == Hex(n) && n > 0 && |p.body| + n > c.limits.maxBodyBytes && n <= c.usizeMax
                                 && c.limits.maxBodyBytes < c.usizeMax
    ensures Fits(c, p) && Drive(c, p).Err?
  {
    hide FindCrlf, ChunkSize, Hex, PrefixStable, NoNumber;
    if NoNumber(line) {
      assert forall i :: 0 <= i < |line| ==> line[i] != CR by { NoNumberNoCr(line); }
      NoNumberNoSize(line, c.usizeMax);
    } else {
      var n: nat :| line == Hex(n) && n > 0 && |p.body| + n > c.limits.maxBodyBytes && n <= c.usizeMax;
      HexBack(n);
      ChunkSizeOfHex(n, c.usizeMax);
    }
    FirstLine(line, rest);
    assert p.buf[..|line|] == line;
  }

  lemma NoNumberNoCr(line: Bytes)
    requires NoNumber(line)
    ensures forall i :: 0 <= i < |line| ==> line[i] != CR
  {}

  /** Chunk data that is not followed by a line end is refused. */
  lemma MissingLineEndIsRefused(c: Config, p: Parser, data: Bytes, tail: Bytes)
    requires Proper(c) && p.state == InBody(Chunked, Size) && data != []
    requires p.buf == Hex(|data|) + CRLF + (data + tail) && |tail| >= 2 && tail[..2] != CRLF
    requires |p.body| + |data| <= c.limits.maxBodyBytes
    ensures Fits(c, p) && Drive(c, p) == Err(Malformed)
  {
    hide SizeTurn, DataTurn, Hex, FindCrlf, Proper;
    assert |data| <= c.usizeMax by { ProperWord(c); }
    SizeLineStep(c, p, |data|, data + tail);
    var q := InChunk(p.(buf := data + tail), Data(|data|));
    DataStep(q, data, tail);
    var r := InChunk(q.(buf := tail, body := q.body + data), DataEnd);
    assert tail[..2] == [tail[0], tail[1]];
    assert Drive(c, p) == Drive(c, q) && Drive(c, q) == Drive(c, r);
  }

  /** Trailer lines change nothing. */
  lemma TrailersAreSkipped(c: Config, p: Parser, line: Bytes, rest: Bytes)
    requires Proper(c) && p.state == InBody(Chunked, Trailers) && |p.body| <= c.limits.maxBodyBytes
    requires line != [] && (forall i :: 0 <= i < |line| ==> line[i] != CR) && p.buf == line + CRLF + rest
    ensures Fits(c, p) && Fits(c, p.(buf := rest)) && Drive(c, p) == Drive(c, p.(buf := rest))
  {
    hide FindCrlf, PrefixStable;
    FirstLine(line, rest);
    assert p.buf[|line| + 2..] == rest;
  }

  /* ----- the size lines of an encoding are short ----- */

  lemma {:induction false} HexLength(n: nat, w: nat)
    requires n < Pow16(w) && w >= 1
    ensures |Hex(n)| <= w
  {
    if n >= 16 {
      assert w >= 2;
      assert Pow16(w) == 16 * Pow16(w - 1);
      HexLength(n / 16, w - 1);
    }
  }

  ghost function Pow16(w: nat): nat { if w == 0 then 1 else 16 * Pow16(w - 1) }

  lemma WordHasFewDigits()
    ensures Pow16(16) == 0x1_0000_0000_0000_0000
  {
    assert Pow16(4) == 65536;
    assert Pow16(8) == 16 * (16 * (16 * (16 * Pow16(4))));
    assert Pow16(12) == 16 * (16 * (16 * (16 * Pow16(8))));
    assert Pow16(16) == 16 * (16 * (16 * (16 * Pow16(12))));
  }

  lemma ShortLine(n: nat)
    requires n < 0x1_0000_0000_0000_0000
    ensures |Hex(n)| < MAX_CHUNK_LINE
  {
    WordHasFewDigits();
    HexLength(n, 16);
  }

  lemma {:induction false} ChunkedLinesFit(c: Config, p: Parser, chunks: seq<Bytes>)
    requires Sendable(c, p, chunks) && p.buf == ChunkedBody(chunks)
    requires c.usizeMax < 0x1_0000_0000_0000_0000 && c.limits.maxHeadBytes >= 1
    ensures Fits(c, p) && LinesFit(c, p)
    decreases |chunks|
  {
    hide LinesFit, Drive, Hex, Proper;
    if chunks == [] {
      ShortLine(0);
      FinalChunk(c, p);
    } else {
      var data, rest := chunks[0], ChunkedBody(chunks[1..]);
      ProperWord(c);
      ShortLine(|data|);
      WholeChunk(c, p, data, rest);
      ChunkedLinesFit(c, AfterChunk(p, data, rest), chunks[1..]);
    }
  }

  /* ----- a whole chunked response ----- */

  /** A final response head that announces a chunked body. */
  ghost predicate AnnouncesChunks(c: Config, bytes: Bytes, head: Head) {
    && c.parse(bytes) == Complete(|bytes|, head) && |bytes| <= c.limits.maxHeadBytes
    && !c.headRequest && head.status.Some? && head.status.value >= 200
    && head.status.value != 204 && head.status.value != 304
    && IsChunked(head) && ContentLength(head.headers, CONTENT_LENGTH, c.usizeMax).Ok?
  }

  /** The parser once it has read such a head. */
  function HeadRead(c: Config, head: Head, rest: Bytes): Parser
    requires head.status.Some?
  {
    var length := ContentLength(head.headers, CONTENT_LENGTH, c.usizeMax);
    Parser(InBody(Chunked, Size), rest, head.status.value, head.headers, [],
           KeepsAlive(head) && length.Ok? && length.value.None?)
  }

  lemma HeadStep(c: Config, bytes: Bytes, head: Head, rest: Bytes)
    requires Proper(c) && AnnouncesChunks(c, bytes, head)
    ensures var p := Extend(FRESH, bytes + rest);
      Fits(c, p) && Step(c, p) == Go(HeadRead(c, head, rest)) && Fits(c, HeadRead(c, head, rest))
  {
    hide KeepsAlive, IsChunked, ContentLength;
    var p := Extend(FRESH, bytes + rest);
    assert p.buf == bytes + rest;
    assert c.parse(bytes + rest) == c.parse(bytes);
    assert p.buf[|bytes|..] == rest;
  }

  /** A chunked response, cut into pushes in any way, parses to its chunks' concatenation. */
  lemma ChunkedResponseAnyCut(c: Config, bytes: Bytes, head: Head, chunks: seq<Bytes>, pieces: seq<Bytes>)
    requires Proper(c) && AnnouncesChunks(c, bytes, head)
    requires c.usizeMax < 0x1_0000_0000_0000_0000 && c.limits.maxHeadBytes >= 1
    requires forall i :: 0 <= i < |chunks| ==> chunks[i] != []
    requires |Joined(chunks)| <= c.limits.maxBodyBytes
    requires Joined(pieces) == bytes + ChunkedBody(chunks)
    ensures PushAll(c, FRESH, pieces)
         == Ok(HeadRead(c, head, []).(state := Done, body := Joined(chunks)))
  {
    hide Step, Proper, Joined, ChunkedBody, KeepsAlive, ContentLength, IsChunked, PushAll;
    var p, q := Extend(FRESH, Joined(pieces)), HeadRead(c, head, ChunkedBody(chunks));
    HeadStep(c, bytes, head, ChunkedBody(chunks));
    ChunkedBodyParses(c, q, chunks);
    ChunkedLinesFit(c, q, chunks);
    assert LineFits(c, p);
    assert LinesFit(c, p);
    assert q.body + Joined(chunks) == Joined(chunks);
    assert Drive(c, p) == Drive(c, q);
    AnyChunkingSame(c, FRESH, pieces);
  }

  /* ----- a line that does not fit ----- */

  /** A chunk whose size line carries an extension, and the last chunk. */
  function ExtendedBody(data: Bytes, extension: Bytes): Bytes {
    (Hex(|data|) + ([SEMICOLON] + extension)) + CRLF + (data + (CRLF + LastChunk()))
  }

  lemma ExtendedSize(data: Bytes, extension: Bytes, usizeMax: nat)
    requires |data| <= usizeMax
    ensures ChunkSize(Hex(|data|) + ([SEMICOLON] + extension), usizeMax) == Some(|data|)
  {
    hide Hex, Numeral, Trim, IndexOf, IsSpace, IsHex;
    var hex := Hex(|data|);
    var line := hex + ([SEMICOLON] + extension);
    HexBack(|data|);
    SeparatorAt(hex, SEMICOLON, extension);
    assert line[..|hex|] == hex;
    TrimNothing(hex);
  }

  lemma ExtendedLineStep(c: Config, p: Parser, data: Bytes, extension: Bytes, rest: Bytes)
    requires p.state == InBody(Chunked, Size) && |data| <= c.usizeMax && data != []
    requires forall i :: 0 <= i < |extension| ==> extension[i] != CR
    requires p.buf == (Hex(|data|) + ([SEMICOLON] + extension)) + CRLF + rest && |p.body| + |data| <= c.limits.maxBodyBytes
    ensures SizeTurn(c, p) == Go(InChunk(p.(buf := rest), Data(|data|)))
    ensures FindCrlf(p.buf) == Some(|Hex(|data|)| + 1 + |extension|)
  {
    hide FindCrlf, ChunkSize, Hex;
    var line := Hex(|data|) + ([SEMICOLON] + extension);
    HexBack(|data|);
    SemicolonIsNoCr();
    FirstLine(line, rest);
    ExtendedSize(data, extension, c.usizeMax);
    assert p.buf[..|line|] == line && p.buf[|line| + 2..] == rest;
  }

  lemma SemicolonIsNoCr()
    ensures SEMICOLON != CR
  {
    LiteralValues();
  }

  /** A chunk with any extension parses to its data. */
  lemma ExtendedBodyParses(c: Config, p: Parser, data: Bytes, extension: Bytes)
    requires Proper(c) && p.state == InBody(Chunked, Size) && p.buf == ExtendedBody(data, extension)
    requires data != [] && |p.body| + |data| <= c.limits.maxBodyBytes
    requires forall i :: 0 <= i < |extension| ==> extension[i] != CR
    ensures Fits(c, p) && Drive(c, p) == Ok(p.(state := Done, buf := [], body := p.body + data))
    ensures FindCrlf(p.buf) == Some(|Hex(|data|)| + 1 + |extension|)
  {
    hide SizeTurn, DataTurn, DataEndTurn, Hex, FindCrlf, Proper, LastChunk;
    assert |data| <= c.usizeMax by { ProperWord(c); }
    var last := LastChunk();
    ExtendedLineStep(c, p, data, extension, data + (CRLF + last));
    var q := InChunk(p.(buf := data + (CRLF + last)), Data(|data|));
    DataStep(q, data, CRLF + last);
    var r := InChunk(q.(buf := CRLF + last, body := q.body + data), DataEnd);
    DataEndStep(r, last);
    var s := AfterChunk(p, data, last);
    assert Drive(c, p) == Drive(c, q) && Drive(c, q) == Drive(c, r) && Drive(c, r) == Drive(c, s);
    FinalChunk(c, s);
  }

  /** Section 7.1.1 of RFC 9112 allows chunk extensions of any length. With one that makes the size line longer
      than 1,024 bytes with its CR, a response that one push accepts is refused when it is cut before the LF. */
  lemma LongExtensionIsRefused(c: Config, bytes: Bytes, head: Head, data: Bytes, extension: Bytes)
    requires Proper(c) && AnnouncesChunks(c, bytes, head)
    requires data != [] && |data| <= c.limits.maxBodyBytes
    requires (forall i :: 0 <= i < |extension| ==> extension[i] != CR) && |extension| >= MAX_CHUNK_LINE
    ensures var x := bytes + ExtendedBody(data, extension);
      && Push(c, FRESH, x) == Ok(HeadRead(c, head, []).(state := Done, body := data))
      && exists cut :: 0 <= cut <= |x| && PushTwo(c, FRESH, x[..cut], x[cut..]).Err?
  {
    hide Step, Proper, ExtendedBody, KeepsAlive, ContentLength, IsChunked, FindCrlf, Hex, Drive, LinesFit;
    var x := bytes + ExtendedBody(data, extension);
    var p, q := Extend(FRESH, x), HeadRead(c, head, ExtendedBody(data, extension));
    HeadStep(c, bytes, head, ExtendedBody(data, extension));
    ExtendedBodyParses(c, q, data, extension);
    assert q.body + data == data;
    StepsAlike(c, p, q);
    assert !LineFits(c, q);
    SplitsAgreeExactly(c, x);
  }

  lemma StepsAlike(c: Config, p: Parser, q: Parser)
    requires Proper(c) && Fits(c, p) && Fits(c, q) && Step(c, p) == Go(q)
    ensures Drive(c, p) == Drive(c, q) && (LinesFit(c, p) ==> LinesFit(c, q)) && (LinesFit(c, q) ==> LineFits(c, q))
  {
    hide Step, Proper, Fits, LineFits;
  }

  /* ----- a response that shows it ----- */

  /** A head parser that knows one head. */
  function OneHead(bytes: Bytes, head: Head): Bytes -> HeadParse {
    (data: Bytes) => if bytes <= data then Complete(|bytes|, head) else if data <= bytes then Partial else Invalid
  }

  lemma OneHeadIsStable(bytes: Bytes, head: Head)
    requires bytes != []
    ensures PrefixStable(OneHead(bytes, head))
  {
    hide OneHead;
    var parse := OneHead(bytes, head);
    forall a: Bytes, b: Bytes ensures parse(a).Complete? ==> parse(a + b) == parse(a) { OneHeadGoesOn(bytes, head, a, b); }
    forall a: Bytes, b: Bytes
      ensures parse(a).TooManyHeaders? || parse(a).Invalid? ==> parse(a + b).TooManyHeaders? || parse(a + b).Invalid?
    {
      OneHeadGoesOn(bytes, head, a, b);
      OneHeadAnswers(bytes, head, a);
    }
    forall a: Bytes | parse(a).Complete?
      ensures 0 < parse(a).n <= |a| && parse(a[..Min(parse(a).n, |a|)]) == parse(a)
    {
      OneHeadAnswers(bytes, head, a);
    }
  }

  lemma OneHeadAnswers(bytes: Bytes, head: Head, a: Bytes)
    ensures var parse := OneHead(bytes, head);
      && !parse(a).TooManyHeaders?
      && (parse(a).Complete? ==> parse(a).n == |bytes| <= |a| && parse(a[..|bytes|]) == parse(a))
  {
    if bytes <= a { assert a[..|bytes|] == bytes; }
  }

  lemma OneHeadGoesOn(bytes: Bytes, head: Head, a: Bytes, b: Bytes)
    ensures var parse := OneHead(bytes, head);
      (parse(a).Complete? ==> parse(a + b) == parse(a)) && (parse(a).Invalid? ==> parse(a + b).Invalid?)
  {
    if bytes <= a { assert (a + b)[..|bytes|] == bytes; }
    if bytes <= a + b || a + b <= bytes { PrefixOfJoin(bytes, a, b); }
  }

  lemma PrefixOfJoin(x: Bytes, a: Bytes, b: Bytes)
    requires x <= a + b || a + b <= x
    ensures x <= a || a <= x
  {
    var k := Min(|x|, |a|);
    assert (a + b)[..k] == a[..k];
    assert x[..k] == a[..k];
  }

  const CHUNKED_HEAD: Head := Head(Some(200), Some(1), [(TRANSFER_ENCODING, CHUNKED)])

  /** A 64-bit parser with room for heads of 1,024 bytes and bodies of 65,536, that knows these bytes as the head
      of a chunked response. */
  function Example(bytes: Bytes): Config {
    Config(Limits(1_024, 65_536), false, 0xffff_ffff_ffff_ffff, OneHead(bytes, CHUNKED_HEAD))
  }

  lemma PlainToken(token: Bytes)
    requires token != [] && forall i :: 0 <= i < |token| ==> token[i] != COMMA && !IsSpace(token[i]) && Lower(token[i]) == token[i]
    ensures HasToken(LowerCase(token), token)
  {
    hide IsSpace, Trim, IndexOf;
    assert LowerCase(token) == token;
    NoSeparator(token, COMMA);
    assert SplitOn(token, COMMA) == [token] by { assert token[..|token|] == token; }
    TrimNothing(token);
    assert Trim(SplitOn(token, COMMA)[0]) == token;
  }

  lemma ChunkedIsPlain()
    ensures HasToken(LowerCase(CHUNKED), CHUNKED)
  {
    hide HasToken, LowerCase, IsSpace, ValueOf, Lower;
    forall i | 0 <= i < |CHUNKED| ensures CHUNKED[i] != COMMA && !IsSpace(CHUNKED[i]) && Lower(CHUNKED[i]) == CHUNKED[i] {
      var v := "chunked"[i] as int;
      assert 97 <= v <= 122;
      assert CHUNKED[i] == ByteOf(v);
      ByteBack(v);
      PlainLetter(CHUNKED[i]);
    }
    PlainToken(CHUNKED);
  }

  lemma PlainLetter(b: bv8)
    requires 97 <= ValueOf(b) <= 122
    ensures b != COMMA && !IsSpace(b) && Lower(b) == b
  {}

  lemma OnlyTransferEncoding()
    ensures IsChunked(CHUNKED_HEAD)
    ensures forall usizeMax :: ContentLength(CHUNKED_HEAD.headers, CONTENT_LENGTH, usizeMax) == Ok(None)
  {
    hide HasToken, LowerCase, CHUNKED, TRANSFER_ENCODING, CONTENT_LENGTH;
    var headers := CHUNKED_HEAD.headers;
    ChunkedIsPlain();
    NamesDiffer();
    assert headers[..0] == [];
    assert PartsOf([], CONTENT_LENGTH) == [];
  }

  lemma NamesDiffer()
    ensures !SameName(TRANSFER_ENCODING, CONTENT_LENGTH)
  {
    hide LowerCase;
    assert |LowerCase(TRANSFER_ENCODING)| == 17 && |LowerCase(CONTENT_LENGTH)| == 14;
  }

  lemma ExampleAnnouncesChunks(bytes: Bytes)
    requires 0 < |bytes| <= 1_024
    ensures Proper(Example(bytes)) && AnnouncesChunks(Example(bytes), bytes, CHUNKED_HEAD)
  {
    hide IsChunked, ContentLength, CHUNKED, TRANSFER_ENCODING, PrefixStable;
    OneHeadIsStable(bytes, CHUNKED_HEAD);
    OnlyTransferEncoding();
  }

  /** Real responses that show it: accepted in one push, and refused when cut before the LF of the size line. */
  lemma LongLineIsShown(bytes: Bytes, data: Bytes, extension: Bytes)
    requires 0 < |bytes| <= 1_024 && 0 < |data| <= 65_536
    requires (forall i :: 0 <= i < |extension| ==> extension[i] != CR) && |extension| >= MAX_CHUNK_LINE
    ensures Proper(Example(bytes))
    ensures var (c, x) := (Example(bytes), bytes + ExtendedBody(data, extension));
      && Push(c, FRESH, x).Ok? && Push(c, FRESH, x).value.body == data
      && exists cut :: 0 <= cut <= |x| && PushTwo(c, FRESH, x[..cut], x[cut..]).Err?
  {
    hide Proper, AnnouncesChunks, ExtendedBody, Push, PushTwo, CHUNKED, TRANSFER_ENCODING, KeepsAlive, ContentLength;
    ExampleAnnouncesChunks(bytes);
    LongExtensionIsRefused(Example(bytes), bytes, CHUNKED_HEAD, data, extension);
  }
}
