/** What the upstream server reads from an encoded request: the request line, the fields and their order, the length of
    the body; and which requests are refused. */
module RequestFraming {
  import opened Outcomes
  import opened ByteValues
  import opened HttpText
  import opened HttpRequests

  /* ----- what is accepted ----- */

  /** Section 5.6.2 of RFC 9110: a token byte is visible and no delimiter. */
  lemma TokenBytes(b: bv8)
    ensures IsTokenByte(b) <==>
      && 33 <= ValueOf(b) <= 126
      && ValueOf(b) !in {34, 40, 41, 44, 47, 58, 59, 60, 61, 62, 63, 64, 91, 92, 93, 123, 125}
  {
    hide ValueOf;
  }

  /** A control byte other than tab in a field value, a space or control byte anywhere else, or a target that is no
      path, and nothing is sent. */
  lemma RefusesInjection(verb: Bytes, authority: Bytes, target: Bytes, headers: seq<Field>, b: bv8)
    requires ValueOf(b) == 13 || ValueOf(b) == 10 || ValueOf(b) == 0
    ensures b in verb || b in authority || b in target ==> !Acceptable(verb, authority, target, headers)
    ensures (exists i :: 0 <= i < |headers| && (b in headers[i].0 || b in headers[i].1)) ==>
      !Acceptable(verb, authority, target, headers)
    ensures verb == [] || authority == [] || target == [] ==> !Acceptable(verb, authority, target, headers)
    ensures target != [] && ValueOf(target[0]) != 47 ==> !Acceptable(verb, authority, target, headers)
  {
    hide ValueOf, ByteOf;
    ByteBack(47);
    if Acceptable(verb, authority, target, headers) {
      NotInToken(verb, b);
      NotVisible(authority, b);
      NotVisible(target, b);
      forall i | 0 <= i < |headers| ensures b !in headers[i].0 && b !in headers[i].1 {
        NotInToken(headers[i].0, b);
        NotInValue(headers[i].1, b);
      }
    }
  }

  lemma NotInToken(s: Bytes, b: bv8)
    requires IsToken(s) && !IsTokenByte(b)
    ensures b !in s
  {
    hide IsTokenByte;
  }

  lemma NotVisible(s: Bytes, b: bv8)
    requires IsVisible(s) && ValueOf(b) <= 32
    ensures b !in s
  {
    hide ValueOf;
  }

  lemma NotInValue(s: Bytes, b: bv8)
    requires IsFieldValue(s) && ValueOf(b) < 32 && ValueOf(b) != 9
    ensures b !in s
  {
    hide ValueOf;
  }

  /** Text of visible bytes, with spaces in field values, is sent. */
  lemma AcceptsPlain(verb: Bytes, authority: Bytes, target: Bytes, headers: seq<Field>)
    requires IsToken(verb) && authority != [] && target != [] && ValueOf(target[0]) == 47
    requires forall b :: b in authority || b in target ==> 33 <= ValueOf(b) != 127
    requires forall i :: 0 <= i < |headers| ==>
      IsToken(headers[i].0) && forall b :: b in headers[i].1 ==> ValueOf(b) == 9 || 32 <= ValueOf(b) != 127
    ensures Acceptable(verb, authority, target, headers)
  {
    hide ValueOf, ByteOf, IsToken;
    ByteBack(47);
    SameByte(target[0]);
    forall i | 0 <= i < |headers| ensures IsFieldValue(headers[i].1) {
      var value := headers[i].1;
      assert forall j :: 0 <= j < |value| ==> value[j] in value;
    }
  }

  lemma SameByte(b: bv8)
    requires ValueOf(b) == 47
    ensures b == ByteOf(47)
  {
    ByteBack(47);
    ValueInjective(b, ByteOf(47));
  }

  /* ----- which caller headers are kept ----- */

  /** Names the encoder sets itself, or that concern one connection only. */
  const RESERVED: seq<string> :=
    ["host", "content-length", "transfer-encoding", "connection", "keep-alive", "te", "trailer", "upgrade", "expect",
     "user-agent"]

  ghost predicate Reserved(name: Bytes) {
    Ascii("proxy-") <= LowerCase(name) || exists i :: 0 <= i < |RESERVED| && LowerCase(name) == Ascii(RESERVED[i])
  }

  lemma ReservedAreDropped(name: Bytes)
    ensures IsDropped(name) <==> Reserved(name)
  {
    hide LowerCase, Ascii;
    var lower := LowerCase(name);
    assert RESERVED[0] == "host" && RESERVED[1] == "content-length" && RESERVED[2] == "transfer-encoding";
    assert RESERVED[3] == "connection" && RESERVED[4] == "keep-alive" && RESERVED[5] == "te" && RESERVED[6] == "trailer";
    assert RESERVED[7] == "upgrade" && RESERVED[8] == "expect" && RESERVED[9] == "user-agent";
  }

  lemma {:induction false} KeptJoin(a: seq<Field>, b: seq<Field>)
    ensures KeptLines(a + b) == KeptLines(a) + KeptLines(b)
    decreases |b|
  {
    hide IsDropped, FieldLine;
    if b == [] {
      assert a + b == a;
      assert KeptLines(b) == [];
    } else {
      var k := |b| - 1;
      KeptJoin(a, b[..k]);
      assert (a + b)[..|a + b| - 1] == a + b[..k];
    }
  }

  /** A reserved header leaves no trace; every other one is kept in its place as name, colon, space and value. */
  lemma HeaderIsKeptExactly(before: seq<Field>, field: Field, after: seq<Field>)
    ensures KeptLines([]) == []
    ensures KeptLines(before + [field] + after)
         == KeptLines(before)
            + (if Reserved(field.0) then [] else [field.0 + Ascii(": ") + field.1])
            + KeptLines(after)
  {
    hide IsDropped, Reserved, Ascii;
    KeptJoin(before + [field], after);
    KeptJoin(before, [field]);
    ReservedAreDropped(field.0);
    assert [field][..0] == [];
    assert KeptLines([field]) == KeptLines([]) + if IsDropped(field.0) then [] else [FieldLine(field.0, field.1)];
  }

  /* ----- the length ----- */

  /** Written decimals are digits and read back. */
  lemma {:induction false} DecimalBack(n: nat)
    ensures Decimal(n) != [] && AllDigits(Decimal(n)) && Numeral(Decimal(n), 10) == n
  {
    hide ByteOf, ValueOf, DecimalDigits;
    if n < 10 {
      ByteBack(48 + n);
      assert Decimal(n)[..0] == [];
    } else {
      DecimalBack(n / 10);
      ByteBack(48 + n % 10);
      assert Decimal(n)[..|Decimal(n)| - 1] == Decimal(n / 10);
    }
  }

  lemma DecimalStates(n: nat, usizeMax: nat)
    requires n <= usizeMax
    ensures PartLength(Decimal(n), usizeMax) == Some(n)
  {
    hide Decimal, Numeral, Trim, IsSpace, IsDigit;
    DecimalBack(n);
    DigitIsNoSpace(Decimal(n));
    TrimNothing(Decimal(n));
  }

  lemma DigitIsNoSpace(s: Bytes)
    requires AllDigits(s)
    ensures forall i :: 0 <= i < |s| ==> !IsSpace(s[i])
  {
    forall i | 0 <= i < |s| ensures !IsSpace(s[i]) { assert IsDigit(s[i]); }
  }

  /* ----- the whole request ----- */

  /** What the server reads line by line: the request line, the host, the caller's kept headers, the two lines of the
      encoder, and a length when there is a body or the method asks for one; and behind the head exactly as many bytes
      as stated: the body, then spaces. */
  lemma ServerReads(verb: Bytes, authority: Bytes, target: Bytes, headers: seq<Field>, body: Bytes, keepAlive: bool,
                    pad: nat, usizeMax: nat)
    requires Acceptable(verb, authority, target, headers) && |body| + pad <= usizeMax && (body == [] ==> pad == 0)
    ensures var message := Message(AllLines(verb, authority, target, headers, body, keepAlive, pad), body, pad);
      ReadHead(message).Some?
      && var (lines, rest) := ReadHead(message).value;
         var own := 4 + |KeptLines(headers)|;
         var stated := body != [] || verb == Ascii("POST") || verb == Ascii("PUT") || verb == Ascii("PATCH");
         && |lines| == own + (if stated then 1 else 0)
         && lines[0] == verb + Ascii(" ") + target + Ascii(" HTTP/1.1")
         && lines[1] == Ascii("Host: ") + authority
         && lines[2..own - 2] == KeptLines(headers)
         && lines[own - 2] == Ascii("User-Agent: ") + Ascii("Nox-Proxy/1.0")
         && lines[own - 1] == Ascii("Connection: ") + Ascii(if keepAlive then "keep-alive" else "close")
         && (stated ==> exists value ::
               lines[own] == Ascii("Content-Length: ") + value && PartLength(value, usizeMax) == Some(|rest|))
         && (!stated ==> rest == [])
         && |rest| == |body| + pad && rest[..|body|] == body
         && forall i :: |body| <= i < |rest| ==> ValueOf(rest[i]) == 32
  {
    hide Ascii, KeptLines, Acceptable, Written, ReadHead, Decimal, PartLength, ByteOf, ValueOf;
    RequestReadsBack(verb, authority, target, headers, body, keepAlive, pad);
    DecimalStates(|body| + pad, usizeMax);
    ByteBack(32);
    var lines := AllLines(verb, authority, target, headers, body, keepAlive, pad);
    var own := 4 + |KeptLines(headers)|;
    var rest := body + Spaces(pad);
    assert lines[2..own - 2] == KeptLines(headers);
    assert rest[..|body|] == body;
    if body != [] || NamesLength(verb) { assert lines[own] == Ascii("Content-Length: ") + Decimal(|body| + pad); }
  }
}
