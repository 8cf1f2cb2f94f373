/** What a response parses to, by its framing (sections 6.1 to 6.3 of RFC 9112): a stated length, no body, or a body
    that ends with the connection; and the interim heads before it. All of it for any number of pushes. */
module HttpResponses {
  import opened Outcomes
  import opened ByteValues
  import opened HttpText
  import opened HttpParsing
  import opened HttpChunks

  /** A whole head within the limit. */
  ghost predicate WholeHead(c: Config, bytes: Bytes, head: Head) {
    c.parse(bytes) == Complete(|bytes|, head) && |bytes| <= c.limits.maxHeadBytes && head.status.Some?
  }

  ghost predicate InterimHead(c: Config, bytes: Bytes) {
    && c.parse(bytes).Complete? && WholeHead(c, bytes, c.parse(bytes).head)
    && 100 <= c.parse(bytes).head.status.value <= 199 && c.parse(bytes).head.status.value != 101
  }

  ghost predicate FinalHead(c: Config, bytes: Bytes, head: Head) {
    WholeHead(c, bytes, head) && !(100 <= head.status.value <= 199)
  }

  predicate Bodiless(c: Config, head: Head)
    requires head.status.Some?
  {
    c.headRequest || head.status.value == 204 || head.status.value == 304
  }

  function StatedLength(c: Config, head: Head): Result<Option<nat>, ()> {
    ContentLength(head.headers, CONTENT_LENGTH, c.usizeMax)
  }

  /** The parser once a response is complete. */
  function Finished(head: Head, body: Bytes, keepAlive: bool): Parser
    requires head.status.Some?
  {
    Parser(Done, [], head.status.value, head.headers, body, keepAlive)
  }

  /* ----- heads ----- */

  lemma HeadIsRead(c: Config, bytes: Bytes, head: Head, rest: Bytes)
    requires Proper(c) && WholeHead(c, bytes, head)
    ensures var p := Extend(FRESH, bytes + rest);
      && Fits(c, p) && Step(c, p) == AfterHead(c, p, |bytes|, head) && p.buf[|bytes|..] == rest
  {
    hide AfterHead;
    assert FRESH.buf + (bytes + rest) == bytes + rest;
    assert c.parse(bytes + rest) == c.parse(bytes);
  }

  lemma SkipsInterim(c: Config, bytes: Bytes, rest: Bytes)
    requires Proper(c) && InterimHead(c, bytes)
    ensures Fits(c, Extend(FRESH, bytes + rest)) && Fits(c, Extend(FRESH, rest))
    ensures Step(c, Extend(FRESH, bytes + rest)) == Go(Extend(FRESH, rest))
  {
    hide Framed;
    HeadIsRead(c, bytes, c.parse(bytes).head, rest);
    assert FRESH.buf + rest == rest;
  }

  /** Interim heads change nothing about the response behind them. */
  lemma {:induction false} InterimHeadsAreSkipped(c: Config, interims: seq<Bytes>, x: Bytes)
    requires Proper(c) && forall i :: 0 <= i < |interims| ==> InterimHead(c, interims[i])
    ensures Push(c, FRESH, Joined(interims) + x) == Push(c, FRESH, x)
    ensures LinesFit(c, Extend(FRESH, x)) ==> LinesFit(c, Extend(FRESH, Joined(interims) + x))
    decreases |interims|
  {
    hide Step, Proper, InterimHead, Drive, LinesFit;
    if interims == [] {
      assert Joined(interims) + x == x;
    } else {
      var rest := Joined(interims[1..]) + x;
      assert Joined(interims) + x == interims[0] + rest;
      SkipsInterim(c, interims[0], rest);
      InterimHeadsAreSkipped(c, interims[1..], x);
      HeadStepsOver(c, Extend(FRESH, interims[0] + rest), Extend(FRESH, rest));
    }
  }

  lemma HeadStepsOver(c: Config, p: Parser, q: Parser)
    requires Proper(c) && Fits(c, p) && Fits(c, q) && Step(c, p) == Go(q) && p.state.InHead?
    ensures Drive(c, p) == Drive(c, q) && (LinesFit(c, q) ==> LinesFit(c, p))
  {
    hide Step, Proper, Fits;
  }

  /** A result that one push of the final response gives is what any cut of the whole stream gives. */
  lemma AnyCut(c: Config, interims: seq<Bytes>, x: Bytes, pieces: seq<Bytes>)
    requires Proper(c) && forall i :: 0 <= i < |interims| ==> InterimHead(c, interims[i])
    requires Joined(pieces) == Joined(interims) + x
    ensures Push(c, FRESH, x).Ok? && LinesFit(c, Extend(FRESH, x)) ==> PushAll(c, FRESH, pieces) == Push(c, FRESH, x)
    ensures Push(c, FRESH, x).Err? ==> PushAll(c, FRESH, pieces).Err?
  {
    hide Step, Proper, InterimHead, Drive, LinesFit, PushAll;
    InterimHeadsAreSkipped(c, interims, x);
    if LinesFit(c, Extend(FRESH, x)) { AnyChunkingSame(c, FRESH, pieces); }
    if PushAll(c, FRESH, pieces).Ok? { PiecesOnlyRefuse(c, FRESH, pieces); }
  }

  predicate BadHead(c: Config, bytes: Bytes) {
    match c.parse(bytes)
    case Invalid => true
    case TooManyHeaders => true
    case Partial => |bytes| > c.limits.maxHeadBytes
    case Complete(n, head) =>
      n > c.limits.maxHeadBytes || head.status.None? || head.status.value == 101
      || (!(100 <= head.status.value <= 199) && StatedLength(c, head).Err?)
  }

  /** A stream whose first bytes are no response, or too long a head, or one that states no length it could have, is
      refused. */
  lemma BadHeadsAreRefused(c: Config, interims: seq<Bytes>, bytes: Bytes, pieces: seq<Bytes>)
    requires Proper(c) && forall i :: 0 <= i < |interims| ==> InterimHead(c, interims[i])
    requires Joined(pieces) == Joined(interims) + bytes
    requires BadHead(c, bytes)
    ensures PushAll(c, FRESH, pieces).Err?
  {
    hide KeepsAlive, IsChunked, ContentLength, PushAll, InterimHead, LinesFit;
    assert FRESH.buf + bytes == bytes;
    AnyCut(c, interims, bytes, pieces);
  }

  /* ----- a stated length ----- */

  /** A final head that states a length, which is what frames the body. */
  ghost predicate StatesLength(c: Config, bytes: Bytes, head: Head, n: nat) {
    FinalHead(c, bytes, head) && !Bodiless(c, head) && !IsChunked(head) && StatedLength(c, head) == Ok(Some(n))
  }

  lemma LengthHeadStep(c: Config, bytes: Bytes, head: Head, n: nat, rest: Bytes)
    requires Proper(c) && StatesLength(c, bytes, head, n) && n <= c.limits.maxBodyBytes
    ensures var (p, q) := (Extend(FRESH, bytes + rest), Finished(head, [], KeepsAlive(head)).(buf := rest));
      Fits(c, p) && Step(c, p) == Go(if n == 0 then q else q.(state := InBody(Length(n), Size)))
  {
    hide KeepsAlive, IsChunked, ContentLength;
    HeadIsRead(c, bytes, head, rest);
  }

  /** Fewer bytes than stated are kept, and the parser waits for more. */
  lemma LengthWaiting(c: Config, p: Parser, n: nat)
    requires Proper(c) && p.state == InBody(Length(n), Size) && p.body == [] && |p.buf| < n <= c.limits.maxBodyBytes
    ensures Fits(c, p) && LinesFit(c, p) && Drive(c, p) == Ok(p.(buf := [], body := p.buf))
  {
    LengthRest(p, n);
    assert [] + p.buf == p.buf;
  }

  /** The stated number of bytes completes the response; with more it is refused. */
  lemma LengthEnds(c: Config, p: Parser, n: nat, body: Bytes, more: Bytes)
    requires Proper(c) && p.state == InBody(Length(n), Size) && p.body == [] && 0 < n <= c.limits.maxBodyBytes
    requires p.buf == body + more && |body| == n
    ensures Fits(c, p)
    ensures more == [] ==> LinesFit(c, p) && Drive(c, p) == Ok(p.(state := Done, buf := [], body := body))
    ensures more != [] ==> Drive(c, p) == Err(UnexpectedBytes)
  {
    hide Proper;
    assert p.buf[..n] == body && p.buf[n..] == more && [] + body == body;
    var q := p.(state := Done, buf := more, body := body);
    assert Step(c, p) == Go(q);
    DoneEnds(c, q);
  }

  lemma DoneEnds(c: Config, p: Parser)
    requires Proper(c) && p.state == Done && |p.body| <= c.limits.maxBodyBytes
    ensures Fits(c, p) && LinesFit(c, p)
    ensures Drive(c, p) == if p.buf == [] then Ok(p) else Err(UnexpectedBytes)
  {}

  /** A response that states its length and has exactly that many bytes behind its head is complete with those bytes;
      however it is cut, and whatever interim heads come first. */
  lemma LengthResponseAnyCut(c: Config, interims: seq<Bytes>, bytes: Bytes, head: Head, body: Bytes, pieces: seq<Bytes>)
    requires Proper(c) && forall i :: 0 <= i < |interims| ==> InterimHead(c, interims[i])
    requires StatesLength(c, bytes, head, |body|) && |body| <= c.limits.maxBodyBytes
    requires Joined(pieces) == Joined(interims) + (bytes + body)
    ensures PushAll(c, FRESH, pieces) == Ok(Finished(head, body, KeepsAlive(head)))
  {
    var n := |body|;
    var p, q := Extend(FRESH, bytes + body), Finished(head, [], KeepsAlive(head)).(buf := body);
    hide Step, Proper, KeepsAlive, StatesLength, PushAll, InterimHead;
    LengthHeadStep(c, bytes, head, n, body);
    if n == 0 {
      DoneEnds(c, q);
      HeadStepsOver(c, p, q);
    } else {
      var r := q.(state := InBody(Length(n), Size));
      assert body + [] == body;
      LengthEnds(c, r, n, body, []);
      HeadStepsOver(c, p, r);
    }
    AnyCut(c, interims, bytes + body, pieces);
  }

  /** With fewer bytes it waits for the rest of them; with more, or a length beyond the limit, it is refused. */
  lemma OtherLengthsAnyCut(c: Config, interims: seq<Bytes>, bytes: Bytes, head: Head, n: nat, rest: Bytes, pieces: seq<Bytes>)
    requires Proper(c) && forall i :: 0 <= i < |interims| ==> InterimHead(c, interims[i])
    requires StatesLength(c, bytes, head, n)
    requires Joined(pieces) == Joined(interims) + (bytes + rest)
    ensures |rest| < n <= c.limits.maxBodyBytes ==>
      PushAll(c, FRESH, pieces) == Ok(Finished(head, rest, KeepsAlive(head)).(state := InBody(Length(n), Size)))
    ensures |rest| > n || n > c.limits.maxBodyBytes ==> PushAll(c, FRESH, pieces).Err?
  {
    if n > c.limits.maxBodyBytes {
      LongLengthStep(c, bytes, head, n, rest);
    } else if |rest| < n {
      ShortBody(c, bytes, head, n, rest);
    } else if |rest| > n {
      LongBody(c, bytes, head, n, rest);
    }
    hide Proper, KeepsAlive, StatesLength, PushAll, InterimHead, LinesFit, StatedLength, Step;
    AnyCut(c, interims, bytes + rest, pieces);
  }

  lemma ShortBody(c: Config, bytes: Bytes, head: Head, n: nat, rest: Bytes)
    requires Proper(c) && StatesLength(c, bytes, head, n) && |rest| < n <= c.limits.maxBodyBytes
    ensures Fits(c, Extend(FRESH, bytes + rest)) && LinesFit(c, Extend(FRESH, bytes + rest))
    ensures Drive(c, Extend(FRESH, bytes + rest))
         == Ok(Finished(head, rest, KeepsAlive(head)).(state := InBody(Length(n), Size)))
  {
    var p, q := Extend(FRESH, bytes + rest), Finished(head, [], KeepsAlive(head)).(state := InBody(Length(n), Size), buf := rest);
    hide Step, Proper, KeepsAlive, StatesLength;
    LengthHeadStep(c, bytes, head, n, rest);
    LengthWaiting(c, q, n);
    HeadStepsOver(c, p, q);
  }

  lemma LongBody(c: Config, bytes: Bytes, head: Head, n: nat, rest: Bytes)
    requires Proper(c) && StatesLength(c, bytes, head, n) && n <= c.limits.maxBodyBytes && n < |rest|
    ensures Fits(c, Extend(FRESH, bytes + rest)) && Drive(c, Extend(FRESH, bytes + rest)) == Err(UnexpectedBytes)
  {
    var p, q := Extend(FRESH, bytes + rest), Finished(head, [], KeepsAlive(head)).(buf := rest);
    hide Step, Proper, KeepsAlive, StatesLength;
    LengthHeadStep(c, bytes, head, n, rest);
    if n == 0 {
      DoneEnds(c, q);
      HeadStepsOver(c, p, q);
    } else {
      var r := q.(state := InBody(Length(n), Size));
      assert rest == rest[..n] + rest[n..];
      LengthEnds(c, r, n, rest[..n], rest[n..]);
      HeadStepsOver(c, p, r);
    }
  }

  lemma LongLengthStep(c: Config, bytes: Bytes, head: Head, n: nat, rest: Bytes)
    requires Proper(c) && StatesLength(c, bytes, head, n) && n > c.limits.maxBodyBytes
    ensures Fits(c, Extend(FRESH, bytes + rest)) && Step(c, Extend(FRESH, bytes + rest)) == Fail(TooLarge)
  {
    hide KeepsAlive, IsChunked, ContentLength;
    HeadIsRead(c, bytes, head, rest);
  }

  /* ----- no body ----- */

  /** The answer to a HEAD request, and any 204 or 304, ends with its head whatever length it states; bytes behind it are
      refused. */
  lemma BodilessResponseAnyCut(c: Config, interims: seq<Bytes>, bytes: Bytes, head: Head, more: Bytes, pieces: seq<Bytes>)
    requires Proper(c) && forall i :: 0 <= i < |interims| ==> InterimHead(c, interims[i])
    requires FinalHead(c, bytes, head) && Bodiless(c, head) && StatedLength(c, head).Ok?
    requires Joined(pieces) == Joined(interims) + (bytes + more)
    ensures more == [] ==> PushAll(c, FRESH, pieces) == Ok(Finished(head, [], KeepsAlive(head)))
    ensures more != [] ==> PushAll(c, FRESH, pieces).Err?
  {
    hide Step, Proper, KeepsAlive, StatedLength, PushAll, InterimHead;
    var p, q := Extend(FRESH, bytes + more), Finished(head, [], KeepsAlive(head)).(buf := more);
    BodilessStep(c, bytes, head, more);
    DoneEnds(c, q);
    HeadStepsOver(c, p, q);
    AnyCut(c, interims, bytes + more, pieces);
  }

  lemma BodilessStep(c: Config, bytes: Bytes, head: Head, rest: Bytes)
    requires Proper(c) && FinalHead(c, bytes, head) && Bodiless(c, head) && StatedLength(c, head).Ok?
    ensures var (p, q) := (Extend(FRESH, bytes + rest), Finished(head, [], KeepsAlive(head)).(buf := rest));
      Fits(c, p) && Step(c, p) == Go(q)
  {
    hide KeepsAlive, IsChunked, ContentLength;
    HeadIsRead(c, bytes, head, rest);
  }

  /* ----- a body that ends with the connection ----- */

  /** Without length and chunks everything behind the head is the body so far, up to the limit; only a close can end
      it, and the connection is not used again. */
  lemma OpenResponseAnyCut(c: Config, interims: seq<Bytes>, bytes: Bytes, head: Head, body: Bytes, pieces: seq<Bytes>)
    requires Proper(c) && forall i :: 0 <= i < |interims| ==> InterimHead(c, interims[i])
    requires FinalHead(c, bytes, head) && !Bodiless(c, head) && !IsChunked(head) && StatedLength(c, head) == Ok(None)
    requires Joined(pieces) == Joined(interims) + (bytes + body)
    ensures Within(c, |body|) ==>
      PushAll(c, FRESH, pieces) == Ok(Finished(head, body, false).(state := InBody(UntilClose, Size)))
    ensures !Within(c, |body|) ==> PushAll(c, FRESH, pieces).Err?
  {
    hide Step, Proper, KeepsAlive, StatedLength, PushAll, InterimHead, IsChunked, Within;
    var p := Extend(FRESH, bytes + body);
    var q := Finished(head, [], false).(state := InBody(UntilClose, Size), buf := body);
    OpenStep(c, bytes, head, body);
    OpenGrows(c, q);
    HeadStepsOver(c, p, q);
    AnyCut(c, interims, bytes + body, pieces);
  }

  lemma OpenStep(c: Config, bytes: Bytes, head: Head, rest: Bytes)
    requires Proper(c) && FinalHead(c, bytes, head) && !Bodiless(c, head) && !IsChunked(head)
    requires StatedLength(c, head) == Ok(None)
    ensures var (p, q) := (Extend(FRESH, bytes + rest), Finished(head, [], false).(state := InBody(UntilClose, Size), buf := rest));
      Fits(c, p) && Step(c, p) == Go(q)
  {
    hide KeepsAlive, IsChunked, ContentLength;
    HeadIsRead(c, bytes, head, rest);
  }

  lemma OpenGrows(c: Config, p: Parser)
    requires Proper(c) && p.state == InBody(UntilClose, Size) && p.body == []
    ensures Fits(c, p)
    ensures Within(c, |p.buf|) ==> LinesFit(c, p) && Drive(c, p) == Ok(p.(buf := [], body := p.buf))
    ensures !Within(c, |p.buf|) ==> Drive(c, p) == Err(TooLarge)
  {
    assert [] + p.buf == p.buf;
  }

  /* ----- keeping the connection ----- */

  /** Without a Connection field the version decides: 1.1 keeps the connection, 1.0 does not. */
  lemma VersionDecides(head: Head)
    requires forall i :: 0 <= i < |head.headers| ==> !SameName(head.headers[i].0, CONNECTION)
    ensures head.version != Some(0) <==> KeepsAlive(head)
  {
    hide SameName, HasToken;
    NotThere(head.headers, CONNECTION);
  }

  lemma {:induction false} NotThere(headers: seq<Field>, name: Bytes)
    requires forall i :: 0 <= i < |headers| ==> !SameName(headers[i].0, name)
    ensures FieldValue(headers, name) == None
    decreases |headers|
  {
    hide SameName;
    if headers != [] { NotThere(headers[1..], name); }
  }

  /** The first field of a name counts, whatever the case of its letters. */
  lemma {:induction false} FirstCounts(headers: seq<Field>, name: Bytes, i: nat)
    requires i < |headers| && LowerCase(headers[i].0) == LowerCase(name)
    requires forall j :: 0 <= j < i ==> LowerCase(headers[j].0) != LowerCase(name)
    ensures FieldValue(headers, name) == Some(headers[i].1)
    decreases i
  {
    hide LowerCase;
    if i > 0 { FirstCounts(headers[1..], name, i - 1); }
  }

  /** Words joined by commas. */
  function Listed(words: seq<Bytes>): Bytes
    requires words != []
  {
    if |words| == 1 then words[0] else words[0] + ([COMMA] + Listed(words[1..]))
  }

  /** Splitting a list at its commas gives its words. */
  lemma {:induction false} SplitListed(words: seq<Bytes>)
    requires words != [] && forall i :: 0 <= i < |words| ==> COMMA !in words[i]
    ensures SplitOn(Listed(words), COMMA) == words
    decreases |words|
  {
    hide IndexOf, SplitOn;
    var s := Listed(words);
    if |words| == 1 {
      NoSeparator(s, COMMA);
      assert s[..|s|] == s;
      SplitWhole(s);
    } else {
      SeparatorAt(words[0], COMMA, Listed(words[1..]));
      SplitListed(words[1..]);
      SplitFirst(words[0], Listed(words[1..]));
    }
  }

  lemma SplitWhole(s: Bytes)
    requires IndexOf(s, COMMA) == |s|
    ensures SplitOn(s, COMMA) == [s]
  {}

  lemma SplitFirst(word: Bytes, rest: Bytes)
    requires IndexOf(word + ([COMMA] + rest), COMMA) == |word|
    ensures SplitOn(word + ([COMMA] + rest), COMMA) == [word] + SplitOn(rest, COMMA)
  {
    var s := word + ([COMMA] + rest);
    assert s[..|word|] == word && s[|word| + 1..] == rest;
  }

  /** The Connection field is a list: close ends the connection and beats keep-alive, which beats the version. */
  lemma ListDecides(head: Head, words: seq<Bytes>)
    requires FieldValue(head.headers, CONNECTION).Some?
    requires words != [] && forall i :: 0 <= i < |words| ==> COMMA !in words[i]
    requires LowerCase(FieldValue(head.headers, CONNECTION).value) == Listed(words)
    ensures CLOSE in Trimmed(words) ==> !KeepsAlive(head)
    ensures CLOSE !in Trimmed(words) && KEEP_ALIVE in Trimmed(words) ==> KeepsAlive(head)
    ensures CLOSE !in Trimmed(words) && KEEP_ALIVE !in Trimmed(words) ==> (KeepsAlive(head) <==> head.version != Some(0))
  {
    hide FieldValue, LowerCase, Trim, Trimmed, SplitOn, Listed, CONNECTION, CLOSE, KEEP_ALIVE, HasToken, KeepsAlive;
    TokensDecide(head);
    TokenListed(words, CLOSE);
    TokenListed(words, KEEP_ALIVE);
  }

  lemma TokensDecide(head: Head)
    requires FieldValue(head.headers, CONNECTION).Some?
    ensures var value := LowerCase(FieldValue(head.headers, CONNECTION).value);
      KeepsAlive(head) <==> (!HasToken(value, CLOSE) && (HasToken(value, KEEP_ALIVE) || head.version != Some(0)))
  {
    hide FieldValue, LowerCase, CONNECTION, CLOSE, KEEP_ALIVE, HasToken;
  }

  function Trimmed(words: seq<Bytes>): (r: seq<Bytes>)
    ensures |r| == |words| && forall i :: 0 <= i < |words| ==> r[i] == Trim(words[i])
  {
    seq(|words|, i requires 0 <= i < |words| => Trim(words[i]))
  }

  lemma TokenListed(words: seq<Bytes>, token: Bytes)
    requires words != [] && forall i :: 0 <= i < |words| ==> COMMA !in words[i]
    ensures HasToken(Listed(words), token) <==> token in Trimmed(words)
  {
    hide Trim, SplitOn, Listed;
    SplitListed(words);
    if token in Trimmed(words) {
      var i :| 0 <= i < |words| && Trimmed(words)[i] == token;
      assert Trim(SplitOn(Listed(words), COMMA)[i]) == token;
    }
  }

  /* ----- lengths as they are written ----- */

  /** One field that states a decimal number. */
  lemma PlainLength(c: Config, name: Bytes, value: Bytes)
    requires LowerCase(name) == LowerCase(CONTENT_LENGTH)
    requires value != [] && AllDigits(value) && Numeral(value, 10) <= c.usizeMax
    ensures ContentLength([(name, value)], CONTENT_LENGTH, c.usizeMax) == Ok(Some(Numeral(value, 10)))
  {
    hide LowerCase, SplitOn, Trim, Numeral, CONTENT_LENGTH, Agreed;
    var headers := [(name, value)];
    DigitsArePlain(value);
    TrimNothing(value);
    SplitListed([value]);
    assert headers[..0] == [];
    assert PartsOf([], CONTENT_LENGTH) == [];
    assert PartsOf(headers, CONTENT_LENGTH) == [value];
    AgreedExactly([value], c.usizeMax, Numeral(value, 10));
  }

  lemma DigitsArePlain(value: Bytes)
    requires AllDigits(value)
    ensures COMMA !in value && forall i :: 0 <= i < |value| ==> !IsSpace(value[i])
  {
    forall i | 0 <= i < |value| ensures value[i] != COMMA && !IsSpace(value[i]) { assert IsDigit(value[i]); }
  }

  /** A response of five bytes, its head given to the parser as whole bytes. */
  function HelloHead(five: Bytes): Head { Head(Some(200), Some(1), [(CONTENT_LENGTH, five)]) }

  function HelloConfig(bytes: Bytes, five: Bytes): Config {
    Config(Limits(1_024, 65_536), false, 0xffff_ffff_ffff_ffff, OneHead(bytes, HelloHead(five)))
  }

  lemma HelloStates(bytes: Bytes, five: Bytes)
    requires 0 < |bytes| <= 1_024 && |five| == 1 && ValueOf(five[0]) == 53
    ensures Proper(HelloConfig(bytes, five)) && StatesLength(HelloConfig(bytes, five), bytes, HelloHead(five), 5)
    ensures KeepsAlive(HelloHead(five))
  {
    hide ValueOf, LowerCase, CONTENT_LENGTH, TRANSFER_ENCODING, CONNECTION, HasToken, ContentLength, PrefixStable;
    hide Numeral, HexValue, KeepsAlive;
    var c := HelloConfig(bytes, five);
    OneHeadIsStable(bytes, HelloHead(five));
    FiveIsFive(five);
    PlainLength(c, CONTENT_LENGTH, five);
    FieldNamesDiffer();
    NotThere(HelloHead(five).headers, TRANSFER_ENCODING);
    VersionDecides(HelloHead(five));
  }

  lemma FiveIsFive(five: Bytes)
    requires |five| == 1 && ValueOf(five[0]) == 53
    ensures Numeral(five, 10) == 5 && AllDigits(five)
  {
    assert five[..0] == [];
  }

  lemma FieldNamesDiffer()
    ensures !SameName(CONTENT_LENGTH, TRANSFER_ENCODING) && !SameName(CONTENT_LENGTH, CONNECTION)
  {
    hide LowerCase;
    assert |LowerCase(TRANSFER_ENCODING)| == 17 && |LowerCase(CONTENT_LENGTH)| == 14 && |LowerCase(CONNECTION)| == 10;
  }

  /** Content-Length 5 and five bytes behind the head, in any pieces: those bytes, on a connection that stays. */
  lemma HelloParses(bytes: Bytes, five: Bytes, body: Bytes, pieces: seq<Bytes>)
    requires 0 < |bytes| <= 1_024 && |five| == 1 && ValueOf(five[0]) == 53
    requires |body| == 5 && Joined(pieces) == bytes + body
    ensures Proper(HelloConfig(bytes, five))
    ensures PushAll(HelloConfig(bytes, five), FRESH, pieces) == Ok(Parser(Done, [], 200, [(CONTENT_LENGTH, five)], body, true))
  {
    hide Proper, StatesLength, KeepsAlive, ValueOf, PushAll, CONTENT_LENGTH, OneHead;
    HelloStates(bytes, five);
    assert Joined([]) + (bytes + body) == bytes + body;
    LengthResponseAnyCut(HelloConfig(bytes, five), [], bytes, HelloHead(five), body, pieces);
  }

  /** A part that is no decimal number states no length: a sign, a letter or nothing at all. */
  lemma OtherTextIsNoLength(part: Bytes, usizeMax: nat)
    requires forall i :: 0 <= i < |part| ==> !IsSpace(part[i])
    requires part == [] || exists i :: 0 <= i < |part| && !(48 <= ValueOf(part[i]) <= 57)
    ensures PartLength(part, usizeMax) == None
  {
    hide Trim, Numeral, IsSpace, ValueOf;
    if part == [] { TrimEmpty(); } else { TrimNothing(part); }
  }
}
