/** The request encoder: it writes exactly the header lines it means to, whatever the caller passes, and
    pads JSON bodies so that the whole request fills a size bucket. */
module HttpRequests {
  import opened Outcomes
  import opened ByteValues
  import opened HttpText

  datatype Options = Options(keepAlive: bool, padJson: bool)

  /* ----- size buckets ----- */

  const STEP: nat := 16_384

  /** padded_len: the first bucket that holds len, beyond the last one its next multiple. */
  function PaddedLen(len: nat): (r: nat)
    ensures r >= len
    ensures r - len < 16_384
  {
    if len <= 512 then 512
    else if len <= 1_024 then 1_024
    else if len <= 4_096 then 4_096
    else if len <= STEP then STEP
    else ((len + STEP - 1) / STEP) * STEP
  }

  predicate IsBucket(n: nat) { n == 512 || n == 1_024 || n == 4_096 || (n > 0 && n % STEP == 0) }

  /** The padded size is the least bucket that holds the request. */
  lemma PaddedLenIsLeast(len: nat, bucket: nat)
    requires IsBucket(bucket) && bucket >= len
    ensures IsBucket(PaddedLen(len)) && PaddedLen(len) <= bucket
  {}

  function DecimalDigits(n: nat): (d: nat)
    ensures d >= 1
  {
    if n < 10 then 1 else 1 + DecimalDigits(n / 10)
  }

  ghost function Pow10(d: nat): (p: nat)
    ensures p > 0
  {
    if d == 0 then 1 else 10 * Pow10(d - 1)
  }

  /** n has d digits exactly when it lies between the powers of ten. */
  lemma {:induction false} DigitsBound(n: nat)
    ensures n < Pow10(DecimalDigits(n)) && (n > 0 ==> Pow10(DecimalDigits(n) - 1) <= n)
  {
    if n >= 10 { DigitsBound(n / 10); }
  }

  lemma {:induction false} Pow10Grows(a: nat, b: nat)
    requires a <= b
    ensures Pow10(a) <= Pow10(b)
  {
    if a < b { Pow10Grows(a, b - 1); }
  }

  lemma DigitsMonotone(a: nat, b: nat)
    requires a <= b
    ensures DecimalDigits(a) <= DecimalDigits(b)
  {
    hide DecimalDigits;
    if a > 0 && DecimalDigits(b) < DecimalDigits(a) {
      DigitsBound(a);
      DigitsBound(b);
      Pow10Grows(DecimalDigits(b), DecimalDigits(a) - 1);
      assert false;
    }
    assert a == 0 ==> DecimalDigits(a) == 1 by { DigitsOfZero(); }
  }

  lemma DigitsOfZero()
    ensures DecimalDigits(0) == 1
  {}

  /** Padding by less than a step adds at most four digits. */
  lemma FewNewDigits(body: nat, pad: nat)
    requires body >= 1 && pad < STEP
    ensures DecimalDigits(body + pad) <= DecimalDigits(body) + 4
  {
    hide DecimalDigits, Pow10;
    var d := DecimalDigits(body);
    DigitsBound(body);
    DigitsBound(body + pad);
    PowerRoom(d);
    if DecimalDigits(body + pad) > d + 4 {
      Pow10Grows(d + 4, DecimalDigits(body + pad) - 1);
      assert false;
    }
  }

  lemma PowerRoom(d: nat)
    requires d >= 1
    ensures Pow10(d) + STEP <= Pow10(d + 4)
  {
    Pow10Grows(1, d);
    assert Pow10(d + 1) == 10 * Pow10(d);
    assert Pow10(d + 2) == 10 * Pow10(d + 1);
    assert Pow10(d + 3) == 10 * Pow10(d + 2);
  }

  /** More digits after padding means at least that much padding. */
  lemma PadCoversDigits(body: nat, pad: nat)
    requires body >= 1 && pad < STEP
    ensures DecimalDigits(body + pad) - DecimalDigits(body) <= pad
  {
    hide DecimalDigits, Pow10;
    var d := DecimalDigits(body);
    FewNewDigits(body, pad);
    DigitsMonotone(body, body + pad);
    DigitsBound(body);
    DigitsBound(body + pad);
    if DecimalDigits(body + pad) >= d + 2 {
      Pow10Grows(d + 1, DecimalDigits(body + pad) - 1);
      PowerGap(d);
    }
  }

  lemma PowerGap(d: nat)
    requires d >= 1
    ensures Pow10(d) + 4 <= Pow10(d + 1)
  {
    Pow10Grows(1, d);
  }

  /** Taking off fewer than ten drops at most one digit. */
  lemma DropsOneDigit(n: nat, k: nat)
    requires k <= 9 && k <= n
    ensures DecimalDigits(n - k) <= DecimalDigits(n) <= DecimalDigits(n - k) + 1
  {
    hide DecimalDigits, Pow10;
    DigitsMonotone(n - k, n);
    DigitsBound(n - k);
    DigitsBound(n);
    var d := DecimalDigits(n - k);
    if DecimalDigits(n) > d + 1 {
      Pow10Grows(d + 1, DecimalDigits(n) - 1);
      NineMore(d);
      assert false;
    }
  }

  lemma NineMore(d: nat)
    requires d >= 1
    ensures Pow10(d) + 9 <= Pow10(d + 1)
  {
    Pow10Grows(1, d);
  }

  /* ----- the padding ----- */

  /** Length of the whole request with its Content-Length line and pad spaces. */
  function TotalLength(head: nat, body: nat, pad: nat): nat { head + 20 + body + DecimalDigits(body + pad) + pad }

  /** The padding before and after the correction for the digits that it adds to the Content-Length value. */
  function FirstPad(head: nat, body: nat): nat {
    PaddedLen(TotalLength(head, body, 0)) - TotalLength(head, body, 0)
  }

  /** Digits that the first padding adds to the Content-Length value. */
  function NewDigits(head: nat, body: nat): int {
    DecimalDigits(body + FirstPad(head, body)) - DecimalDigits(body)
  }

  function Padding(head: nat, body: nat): (pad: nat)
    requires body >= 1
    ensures pad <= FirstPad(head, body)
  {
    var pad := FirstPad(head, body);
    assert pad < STEP;
    PadCoversDigits(body, pad);
    DigitsMonotone(body, body + pad);
    pad - NewDigits(head, body)
  }

  /** Taking as many bytes off the stated length as it got new digits steps back over a power of ten. */
  ghost predicate StepsBack(head: nat, body: nat) {
    var stated := body + FirstPad(head, body);
    exists d: nat :: d > 0 && stated - NewDigits(head, body) < Pow10(d) <= stated
  }

  /** Two numbers have as many digits exactly when no power of ten lies between them. */
  lemma SameDigits(a: nat, b: nat)
    requires a <= b && (a > 0 || b < 10)
    ensures DecimalDigits(a) == DecimalDigits(b) <==> !(exists d: nat :: d > 0 && a < Pow10(d) <= b)
  {
    hide DecimalDigits, Pow10;
    DigitsMonotone(a, b);
    DigitsBound(a);
    DigitsBound(b);
    var d := DecimalDigits(a);
    if DecimalDigits(b) > d {
      Pow10Grows(d, DecimalDigits(b) - 1);
      assert a < Pow10(d) <= b;
    } else if e: nat :| e > 0 && a < Pow10(e) <= b {
      if e >= d {
        Pow10Grows(d, e);
      } else {
        Pow10Grows(e, d - 1);
        assert a == 0;
        SmallPowers();
        Pow10Grows(1, e);
      }
      assert false;
    }
  }

  lemma SmallPowers()
    ensures Pow10(0) == 1 && Pow10(1) == 10
  {}

  /** json_padding: nothing underflows, the second round never corrects anything, and the padded request is
      exactly its bucket or one byte short: short exactly when the stated length steps back over a power of
      ten. */
  method JsonPadding(head: nat, body: nat) returns (pad: nat)
    requires body >= 1
    ensures pad == Padding(head, body)
    ensures var target := PaddedLen(TotalLength(head, body, 0));
      && target - 1 <= TotalLength(head, body, pad) <= target
      && (TotalLength(head, body, pad) == target - 1 <==> StepsBack(head, body))
  {
    hide DecimalDigits, PaddedLen, Pow10;
    var target := PaddedLen(TotalLength(head, body, 0));
    pad := target - TotalLength(head, body, 0);
    PaddingCorrects(head, body);
    for i := 0 to 2
      invariant i == 0 ==> pad == FirstPad(head, body)
      invariant i > 0 ==> pad == Padding(head, body)
    {
      if TotalLength(head, body, pad) <= target { break; }
      pad := pad - (TotalLength(head, body, pad) - target);
    }
  }

  lemma PaddingCorrects(head: nat, body: nat)
    requires body >= 1
    ensures var (first, pad, target) := (FirstPad(head, body), Padding(head, body), PaddedLen(TotalLength(head, body, 0)));
      && TotalLength(head, body, first) == target + (first - pad)
      && target - 1 <= TotalLength(head, body, pad) <= target
      && (TotalLength(head, body, pad) == target - 1 <==> StepsBack(head, body))
  {
    hide DecimalDigits, PaddedLen, Pow10;
    var (first, pad) := (FirstPad(head, body), Padding(head, body));
    FewNewDigits(body, first);
    assert body + first - NewDigits(head, body) == body + pad;
    DropsOneDigit(body + first, first - pad);
    SameDigits(body + pad, body + first);
    var dropped := DecimalDigits(body + first) - DecimalDigits(body + pad);
    assert TotalLength(head, body, pad) == PaddedLen(TotalLength(head, body, 0)) - dropped;
    StepsBackIs(head, body, pad);
  }

  lemma StepsBackIs(head: nat, body: nat, pad: nat)
    requires body + pad == body + FirstPad(head, body) - NewDigits(head, body)
    ensures StepsBack(head, body) <==> exists d: nat :: d > 0 && body + pad < Pow10(d) <= body + FirstPad(head, body)
  {
    hide NewDigits, FirstPad, Pow10;
    if StepsBack(head, body) {
      var stated := body + FirstPad(head, body);
      var d: nat :| d > 0 && stated - NewDigits(head, body) < Pow10(d) <= stated;
      assert body + pad < Pow10(d) <= body + FirstPad(head, body);
    }
  }

  /** The bucket can be missed: a head of 3,075 bytes and a body of 5 make a request of 4,095 bytes. */
  lemma OneByteShort()
    ensures TotalLength(3_075, 5, Padding(3_075, 5)) == 4_095 && PaddedLen(TotalLength(3_075, 5, 0)) == 4_096
  {
    hide DecimalDigits;
    Digits4(5);
    Digits4(1_000);
    Digits4(997);
    assert FirstPad(3_075, 5) == 995;
  }

  lemma Digits4(n: nat)
    requires n < 10_000
    ensures DecimalDigits(n) == if n < 10 then 1 else if n < 100 then 2 else if n < 1_000 then 3 else 4
  {
    if n >= 1_000 { assert DecimalDigits(n / 10) == 1 + DecimalDigits(n / 100); }
  }

  /* ----- what is written ----- */

  const USER_AGENT := "Nox-Proxy/1.0"

  predicate IsTokenByte(b: bv8) {
    var v := ValueOf(b);
    v == 33 || 35 <= v <= 39 || v == 42 || v == 43 || v == 45 || v == 46 || 48 <= v <= 57 || 65 <= v <= 90
    || 94 <= v <= 122 || v == 124 || v == 126
  }

  predicate IsToken(s: Bytes) { s != [] && forall i :: 0 <= i < |s| ==> IsTokenByte(s[i]) }

  /** Bytes above space, DEL excluded. */
  predicate IsVisible(s: Bytes) { forall i :: 0 <= i < |s| ==> ValueOf(s[i]) > 32 && ValueOf(s[i]) != 127 }

  /** No control byte except tab. */
  predicate IsFieldValue(s: Bytes) {
    forall i :: 0 <= i < |s| ==> (ValueOf(s[i]) >= 32 || ValueOf(s[i]) == 9) && ValueOf(s[i]) != 127
  }

  predicate IsDropped(name: Bytes) {
    var lower := LowerCase(name);
    || Ascii("proxy-") <= lower || lower == Ascii("host") || lower == Ascii("content-length")
    || lower == Ascii("transfer-encoding") || lower == Ascii("connection") || lower == Ascii("keep-alive")
    || lower == Ascii("te") || lower == Ascii("trailer") || lower == Ascii("upgrade")
    || lower == Ascii("expect") || lower == Ascii("user-agent")
  }

  /** Requests the encoder accepts. */
  predicate Acceptable(verb: Bytes, authority: Bytes, target: Bytes, headers: seq<Field>) {
    && IsToken(verb) && authority != [] && IsVisible(authority)
    && target != [] && target[0] == ByteOf(47) && IsVisible(target)
    && forall i :: 0 <= i < |headers| ==> IsToken(headers[i].0) && IsFieldValue(headers[i].1)
  }

  function FieldLine(name: Bytes, value: Bytes): Bytes { name + Ascii(": ") + value }

  /** The caller's header lines that are kept, in order. */
  function KeptLines(headers: seq<Field>): seq<Bytes> {
    if headers == [] then []
    else
      var k := |headers| - 1;
      KeptLines(headers[..k]) + if IsDropped(headers[k].0) then [] else [FieldLine(headers[k].0, headers[k].1)]
  }

  function Decimal(n: nat): (s: Bytes)
    ensures |s| == DecimalDigits(n)
  {
    if n < 10 then [ByteOf(48 + n)] else Decimal(n / 10) + [ByteOf(48 + n % 10)]
  }

  function HeadLines(verb: Bytes, authority: Bytes, target: Bytes, headers: seq<Field>, keepAlive: bool): seq<Bytes> {
    [verb + Ascii(" ") + target + Ascii(" HTTP/1.1"), Ascii("Host: ") + authority]
    + KeptLines(headers)
    + [Ascii("User-Agent: ") + Ascii(USER_AGENT),
       Ascii("Connection: ") + Ascii(if keepAlive then "keep-alive" else "close")]
  }

  predicate NamesLength(verb: Bytes) {
    verb == Ascii("POST") || verb == Ascii("PUT") || verb == Ascii("PATCH")
  }

  function LengthLine(body: Bytes, pad: nat): Bytes { Ascii("Content-Length: ") + Decimal(|body| + pad) }

  /** Lines, each ended by CR LF. */
  function Written(lines: seq<Bytes>): Bytes {
    if lines == [] then [] else Written(lines[..|lines| - 1]) + (lines[|lines| - 1] + [CR, LF])
  }

  function Spaces(n: nat): (s: Bytes)
    ensures |s| == n
  {
    seq(n, _ => ByteOf(32))
  }

  function AllLines(verb: Bytes, authority: Bytes, target: Bytes, headers: seq<Field>, body: Bytes, keepAlive: bool,
                    pad: nat): seq<Bytes> {
    HeadLines(verb, authority, target, headers, keepAlive)
    + if body != [] || NamesLength(verb) then [LengthLine(body, pad)] else []
  }

  function Message(lines: seq<Bytes>, body: Bytes, pad: nat): Bytes {
    Written(lines) + [CR, LF] + body + Spaces(pad)
  }

  /* ----- reading a message back line by line ----- */

  /** The lines up to the first empty one, and what follows it. */
  function ReadHead(data: Bytes): Option<(seq<Bytes>, Bytes)>
    decreases |data|
  {
    match FindCrlf(data)
    case None => None
    case Some(0) => Some(([], data[2..]))
    case Some(i) =>
      match ReadHead(data[i + 2..])
      case None => None
      case Some((lines, rest)) => Some(([data[..i]] + lines, rest))
  }

  predicate IsLine(s: Bytes) { s != [] && forall i :: 0 <= i < |s| ==> s[i] != CR && s[i] != LF }

  lemma JoinAssociates(a: Bytes, b: Bytes, c: Bytes)
    ensures a + b + c == a + (b + c)
  {}

  lemma WrittenMore(lines: seq<Bytes>, line: Bytes)
    ensures Written(lines + [line]) == Written(lines) + (line + [CR, LF])
  {
    assert (lines + [line])[..|lines|] == lines;
  }

  lemma {:induction false} WrittenFirst(first: Bytes, lines: seq<Bytes>)
    ensures Written([first] + lines) == first + [CR, LF] + Written(lines)
  {
    hide Written;
    if lines == [] {
      assert [first] + lines == [] + [first];
      WrittenMore([], first);
      WrittenNone();
    } else {
      var (front, last) := (lines[..|lines| - 1], lines[|lines| - 1]);
      WrittenFirst(first, front);
      WrittenMore([first] + front, last);
      WrittenMore(front, last);
      assert lines == front + [last];
      assert [first] + lines == [first] + front + [last];
      JoinAssociates(first + [CR, LF], Written(front), last + [CR, LF]);
    }
  }

  lemma WrittenNone()
    ensures Written([]) == []
  {}

  lemma BlankLineReads(rest: Bytes)
    ensures ReadHead([CR, LF] + rest) == Some(([], rest))
  {
    hide FindCrlf;
    FirstLine([], rest);
    assert [] + [CR, LF] + rest == [CR, LF] + rest;
  }

  lemma LineReads(line: Bytes, tail: Bytes, lines: seq<Bytes>, rest: Bytes)
    requires IsLine(line) && ReadHead(tail) == Some((lines, rest))
    ensures ReadHead(line + [CR, LF] + tail) == Some(([line] + lines, rest))
  {
    hide FindCrlf;
    FirstLine(line, tail);
    var data := line + [CR, LF] + tail;
    assert data[|line| + 2..] == tail && data[..|line|] == line;
  }

  /** Reading back a head of clean lines gives those lines and everything after the blank line. */
  lemma {:induction false} HeadReadsBack(lines: seq<Bytes>, rest: Bytes)
    requires forall i :: 0 <= i < |lines| ==> IsLine(lines[i])
    ensures ReadHead(Written(lines) + ([CR, LF] + rest)) == Some((lines, rest))
    decreases |lines|
  {
    hide ReadHead, Written, IsLine;
    if lines == [] {
      WrittenNone();
      assert [] + ([CR, LF] + rest) == [CR, LF] + rest;
      BlankLineReads(rest);
    } else {
      HeadReadsBack(lines[1..], rest);
      LineReads(lines[0], Written(lines[1..]) + ([CR, LF] + rest), lines[1..], rest);
      WrittenFirst(lines[0], lines[1..]);
      assert lines == [lines[0]] + lines[1..];
      JoinAssociates(lines[0] + [CR, LF], Written(lines[1..]), [CR, LF] + rest);
    }
  }

  /* ----- every line the encoder writes is clean ----- */

  predicate Clean(s: Bytes) { forall i :: 0 <= i < |s| ==> s[i] != CR && s[i] != LF }

  lemma CleanText(text: string)
    requires forall i :: 0 <= i < |text| ==> 32 <= text[i] as int < 127
    ensures Clean(Ascii(text))
  {
    hide ByteOf, ValueOf, Ascii;
    LiteralValues();
    forall i | 0 <= i < |text| ensures Ascii(text)[i] != CR && Ascii(text)[i] != LF {
      ByteBack(text[i] as int);
    }
  }

  lemma CleanFields(s: Bytes)
    ensures IsToken(s) || IsVisible(s) || IsFieldValue(s) ==> Clean(s)
  {
    hide ValueOf;
    LiteralValues();
  }

  lemma {:induction false} CleanDecimal(n: nat)
    ensures Clean(Decimal(n))
  {
    hide ByteOf, ValueOf;
    LiteralValues();
    if n < 10 {
      ByteBack(48 + n);
    } else {
      CleanDecimal(n / 10);
      ByteBack(48 + n % 10);
    }
  }

  lemma CleanJoin(a: Bytes, b: Bytes)
    requires Clean(a) && Clean(b) && a != []
    ensures IsLine(a + b)
  {}

  lemma {:induction false} KeptLinesClean(headers: seq<Field>)
    requires forall i :: 0 <= i < |headers| ==> IsToken(headers[i].0) && IsFieldValue(headers[i].1)
    ensures forall i :: 0 <= i < |KeptLines(headers)| ==> IsLine(KeptLines(headers)[i])
  {
    hide IsDropped, IsTokenByte, IsFieldValue, Ascii;
    if headers != [] {
      var k := |headers| - 1;
      KeptLinesClean(headers[..k]);
      CleanFields(headers[k].0);
      CleanFields(headers[k].1);
      CleanText(": ");
      CleanJoin(headers[k].0, Ascii(": "));
      CleanJoin(headers[k].0 + Ascii(": "), headers[k].1);
    }
  }

  lemma FixedTextsClean()
    ensures Clean(Ascii(" ")) && Clean(Ascii(" HTTP/1.1")) && Clean(Ascii("Host: ")) && Clean(Ascii("User-Agent: "))
    ensures Clean(Ascii(USER_AGENT)) && Clean(Ascii("Connection: ")) && Clean(Ascii("keep-alive"))
    ensures Clean(Ascii("close")) && Clean(Ascii("Content-Length: "))
  {
    hide Clean;
    CleanText(" ");
    CleanText(" HTTP/1.1");
    CleanText("Host: ");
    CleanText("User-Agent: ");
    CleanText(USER_AGENT);
    CleanText("Connection: ");
    CleanText("keep-alive");
    CleanText("close");
    CleanText("Content-Length: ");
  }

  lemma AllLinesClean(verb: Bytes, authority: Bytes, target: Bytes, headers: seq<Field>, body: Bytes,
                      keepAlive: bool, pad: nat)
    requires Acceptable(verb, authority, target, headers)
    ensures var lines := AllLines(verb, authority, target, headers, body, keepAlive, pad);
      forall i :: 0 <= i < |lines| ==> IsLine(lines[i])
  {
    hide IsTokenByte, IsFieldValue, IsVisible, Ascii, KeptLines, Decimal, NamesLength;
    FixedTextsClean();
    CleanFields(verb);
    CleanFields(authority);
    CleanFields(target);
    KeptLinesClean(headers);
    CleanDecimal(|body| + pad);
    assert IsLine(verb + Ascii(" ") + target + Ascii(" HTTP/1.1"));
    assert IsLine(LengthLine(body, pad));
  }

  /** Whatever the caller passes, the message reads back as exactly the encoder's own lines with the kept
      caller headers between them, and then the body and its padding: no header, line or second request
      can be smuggled in. */
  lemma RequestReadsBack(verb: Bytes, authority: Bytes, target: Bytes, headers: seq<Field>, body: Bytes,
                         keepAlive: bool, pad: nat)
    requires Acceptable(verb, authority, target, headers)
    ensures var lines := AllLines(verb, authority, target, headers, body, keepAlive, pad);
      ReadHead(Message(lines, body, pad)) == Some((lines, body + Spaces(pad)))
  {
    hide AllLines, Written, ReadHead, IsLine, Spaces;
    var lines := AllLines(verb, authority, target, headers, body, keepAlive, pad);
    AllLinesClean(verb, authority, target, headers, body, keepAlive, pad);
    HeadReadsBack(lines, body + Spaces(pad));
    assert Message(lines, body, pad) == Written(lines) + ([CR, LF] + (body + Spaces(pad)));
  }

  /** Padding fills the bucket of the unpadded request to within one byte. */
  lemma PaddedMessageLength(verb: Bytes, authority: Bytes, target: Bytes, headers: seq<Field>, body: Bytes,
                            keepAlive: bool, pad: nat)
    requires body != []
    ensures |Message(AllLines(verb, authority, target, headers, body, keepAlive, pad), body, pad)|
         == TotalLength(|Written(HeadLines(verb, authority, target, headers, keepAlive))|, |body|, pad)
  {
    hide HeadLines, Decimal, DecimalDigits;
    var head := HeadLines(verb, authority, target, headers, keepAlive);
    var lines := head + [LengthLine(body, pad)];
    assert lines[..|lines| - 1] == head;
  }

  /* ----- the encoder ----- */

  /** encode_request. */
  method EncodeRequest(verb: Bytes, authority: Bytes, target: Bytes, headers: seq<Field>, body: Bytes,
                       options: Options)
    returns (r: Option<Bytes>, ghost pad: nat)
    ensures r.Some? <==> Acceptable(verb, authority, target, headers)
    ensures r.Some? ==>
      r.value == Message(AllLines(verb, authority, target, headers, body, options.keepAlive, pad), body, pad)
    ensures r.Some? && !(options.padJson && body != []) ==> pad == 0
    ensures r.Some? && options.padJson && body != [] ==>
      var unpadded := Message(AllLines(verb, authority, target, headers, body, options.keepAlive, 0), body, 0);
      PaddedLen(|unpadded|) - 1 <= |r.value| <= PaddedLen(|unpadded|)
  {
    hide IsTokenByte, IsFieldValue, IsVisible, IsDropped, Ascii, DecimalDigits, PaddedLen, Decimal;
    pad := 0;
    if !IsToken(verb) || authority == [] || !IsVisible(authority) { return None, 0; }
    if target == [] || target[0] != ByteOf(47) || !IsVisible(target) { return None, 0; }
    var lines := [verb + Ascii(" ") + target + Ascii(" HTTP/1.1"), Ascii("Host: ") + authority];
    ghost var start := lines;
    assert headers[..|headers|] == headers;
    for i := 0 to |headers|
      invariant forall j :: 0 <= j < i ==> IsToken(headers[j].0) && IsFieldValue(headers[j].1)
      invariant lines == start + KeptLines(headers[..i])
    {
      var (name, value) := headers[i];
      if !IsToken(name) || !IsFieldValue(value) { return None, 0; }
      assert headers[..i + 1][..i] == headers[..i];
      if !IsDropped(name) { lines := lines + [FieldLine(name, value)]; }
    }
    lines := lines + [Ascii("User-Agent: ") + Ascii(USER_AGENT),
                      Ascii("Connection: ") + Ascii(if options.keepAlive then "keep-alive" else "close")];
    var padding := 0;
    if options.padJson && body != [] {
      padding := JsonPadding(|Written(lines)|, |body|);
    }
    pad := padding;
    PaddedLengths(verb, authority, target, headers, body, options.keepAlive, pad);
    assert lines == HeadLines(verb, authority, target, headers, options.keepAlive);
    if body != [] || NamesLength(verb) { lines := lines + [LengthLine(body, padding)]; }
    assert lines == AllLines(verb, authority, target, headers, body, options.keepAlive, pad);
    r := Some(Message(lines, body, padding));
  }

  lemma PaddedLengths(verb: Bytes, authority: Bytes, target: Bytes, headers: seq<Field>, body: Bytes,
                      keepAlive: bool, pad: nat)
    ensures body != [] ==>
      var head := |Written(HeadLines(verb, authority, target, headers, keepAlive))|;
      && |Message(AllLines(verb, authority, target, headers, body, keepAlive, pad), body, pad)|
           == TotalLength(head, |body|, pad)
      && |Message(AllLines(verb, authority, target, headers, body, keepAlive, 0), body, 0)|
           == TotalLength(head, |body|, 0)
  {
    hide HeadLines, AllLines, Message, Written, TotalLength;
    if body != [] {
      PaddedMessageLength(verb, authority, target, headers, body, keepAlive, pad);
      PaddedMessageLength(verb, authority, target, headers, body, keepAlive, 0);
    }
  }
}
