/** Header and chunk-size text, as byte sequences: splitting, trimming, numbers, field lookup. */
module HttpText {
  import opened Outcomes
  import opened ByteValues

  const CR: bv8 := 13
  const LF: bv8 := 10
  const COMMA: bv8 := 44
  const SEMICOLON: bv8 := 59

  /** The bytes of ASCII text. */
  function Ascii(text: string): (b: Bytes)
    ensures |b| == |text|
    ensures forall i :: 0 <= i < |text| ==> b[i] == ByteOf(text[i] as int % 256)
  {
    seq(|text|, i requires 0 <= i < |text| => ByteOf(text[i] as int % 256))
  }

  predicate IsSpace(b: bv8) { ValueOf(b) == 32 || 9 <= ValueOf(b) <= 13 }

  predicate IsDigit(b: bv8) { 48 <= ValueOf(b) <= 57 }

  predicate IsHex(b: bv8) { IsDigit(b) || 97 <= ValueOf(b) <= 102 || 65 <= ValueOf(b) <= 70 }

  function HexValue(b: bv8): nat {
    var v := ValueOf(b);
    if 48 <= v <= 57 then v - 48 else if 97 <= v <= 102 then v - 87 else if 65 <= v <= 70 then v - 55 else 0
  }

  function Lower(b: bv8): bv8 { if 65 <= ValueOf(b) <= 90 then b + 32 else b }

  function LowerCase(s: Bytes): (r: Bytes)
    ensures |r| == |s|
  {
    seq(|s|, i requires 0 <= i < |s| => Lower(s[i]))
  }

  /** Position of the first separator, or the length. */
  function IndexOf(s: Bytes, c: bv8): (i: nat)
    ensures i <= |s| && (i < |s| ==> s[i] == c) && forall j :: 0 <= j < i ==> s[j] != c
  {
    if s == [] || s[0] == c then 0 else 1 + IndexOf(s[1..], c)
  }

  function SplitOn(s: Bytes, c: bv8): (parts: seq<Bytes>)
    ensures parts != []
    decreases |s|
  {
    var i := IndexOf(s, c);
    if i == |s| then [s] else [s[..i]] + SplitOn(s[i + 1..], c)
  }

  function TrimStart(s: Bytes): Bytes {
    if s != [] && IsSpace(s[0]) then TrimStart(s[1..]) else s
  }

  function TrimEnd(s: Bytes): Bytes {
    if s != [] && IsSpace(s[|s| - 1]) then TrimEnd(s[..|s| - 1]) else s
  }

  function Trim(s: Bytes): Bytes { TrimEnd(TrimStart(s)) }

  /** The number a digit string stands for in a base. */
  function Numeral(s: Bytes, base: nat): nat {
    if s == [] then 0 else base * Numeral(s[..|s| - 1], base) + HexValue(s[|s| - 1])
  }

  predicate AllDigits(s: Bytes) { forall i :: 0 <= i < |s| ==> IsDigit(s[i]) }

  predicate AllHex(s: Bytes) { forall i :: 0 <= i < |s| ==> IsHex(s[i]) }

  /* ----- header fields ----- */

  type Field = (Bytes, Bytes)

  predicate SameName(a: Bytes, b: Bytes) { LowerCase(a) == LowerCase(b) }

  /** The value of the first field of that name. */
  function FieldValue(headers: seq<Field>, name: Bytes): Option<Bytes> {
    if headers == [] then None
    else if SameName(headers[0].0, name) then Some(headers[0].1)
    else FieldValue(headers[1..], name)
  }

  predicate HasToken(value: Bytes, token: Bytes) {
    exists i :: 0 <= i < |SplitOn(value, COMMA)| && Trim(SplitOn(value, COMMA)[i]) == token
  }

  /* ----- Content-Length, section 8.6 of RFC 9110 ----- */

  /** Comma-separated parts of every field of that name, in order. */
  function PartsOf(headers: seq<Field>, name: Bytes): seq<Bytes> {
    if headers == [] then []
    else
      var k := |headers| - 1;
      PartsOf(headers[..k], name)
        + if SameName(headers[k].0, name) then SplitOn(headers[k].1, COMMA) else []
  }

  function PartLength(part: Bytes, usizeMax: nat): Option<nat> {
    var text := Trim(part);
    if text == [] || !AllDigits(text) || Numeral(text, 10) > usizeMax then None
    else Some(Numeral(text, 10))
  }

  /** All parts agree on one length; Err when a part is no length or two differ. */
  function Agreed(parts: seq<Bytes>, usizeMax: nat): Result<Option<nat>, ()> {
    if parts == [] then Ok(None)
    else
      match Agreed(parts[..|parts| - 1], usizeMax)
      case Err(_) => Err(())
      case Ok(found) =>
        var length := PartLength(parts[|parts| - 1], usizeMax);
        if length.None? || (found.Some? && found != length) then Err(()) else Ok(length)
  }

  function ContentLength(headers: seq<Field>, name: Bytes, usizeMax: nat): Result<Option<nat>, ()> {
    Agreed(PartsOf(headers, name), usizeMax)
  }

  /** Repeated values must agree: a length is found exactly when every part states that length. */
  lemma {:induction false} AgreedExactly(parts: seq<Bytes>, usizeMax: nat, n: nat)
    ensures Agreed(parts, usizeMax) == Ok(Some(n))
       <==> parts != [] && forall i :: 0 <= i < |parts| ==> PartLength(parts[i], usizeMax) == Some(n)
    ensures Agreed(parts, usizeMax) == Ok(None) <==> parts == []
  {
    hide PartLength;
    if parts != [] {
      var front := parts[..|parts| - 1];
      AgreedExactly(front, usizeMax, n);
      var length := PartLength(parts[|parts| - 1], usizeMax);
      if Agreed(front, usizeMax).Ok? && Agreed(front, usizeMax).value.Some? {
        AgreedExactly(front, usizeMax, Agreed(front, usizeMax).value.value);
      }
    }
  }

  /** One part more. */
  lemma AgreedMore(parts: seq<Bytes>, part: Bytes, usizeMax: nat)
    requires Agreed(parts, usizeMax).Ok?
    ensures var (found, length) := (Agreed(parts, usizeMax).value, PartLength(part, usizeMax));
      Agreed(parts + [part], usizeMax) == if length.None? || (found.Some? && found != length) then Err(()) else Ok(length)
  {
    hide PartLength;
    assert (parts + [part])[..|parts|] == parts;
  }

  method ScanParts(parts: seq<Bytes>, start: Option<nat>, usizeMax: nat, ghost before: seq<Bytes>)
    returns (r: Result<Option<nat>, ()>)
    requires Agreed(before, usizeMax) == Ok(start)
    ensures r == Agreed(before + parts, usizeMax)
  {
    hide PartLength, Agreed;
    var found := start;
    assert before + parts[..0] == before;
    for i := 0 to |parts|
      invariant Agreed(before + parts[..i], usizeMax) == Ok(found)
    {
      ghost var grown := before + parts[..i + 1];
      AgreedMore(before + parts[..i], parts[i], usizeMax);
      assert grown == before + parts[..i] + [parts[i]];
      var length := PartLength(parts[i], usizeMax);
      if length.None? || (found.Some? && found != length) {
        assert grown + parts[i + 1..] == before + parts;
        DisagreementPersists(grown, parts[i + 1..], usizeMax);
        return Err(());
      }
      found := length;
    }
    assert before + parts[..|parts|] == before + parts;
    return Ok(found);
  }

  /** content_length: one pass over the fields and their parts. */
  method FindContentLength(headers: seq<Field>, name: Bytes, usizeMax: nat)
    returns (r: Result<Option<nat>, ()>)
    ensures r == ContentLength(headers, name, usizeMax)
  {
    hide Agreed, SplitOn, SameName;
    var found: Option<nat> := None;
    NoParts(headers[..0], name, usizeMax);
    for h := 0 to |headers|
      invariant Agreed(PartsOf(headers[..h], name), usizeMax) == Ok(found)
    {
      assert headers[..h + 1][..h] == headers[..h];
      if SameName(headers[h].0, name) {
        var scanned := ScanParts(SplitOn(headers[h].1, COMMA), found, usizeMax, PartsOf(headers[..h], name));
        if scanned.Err? {
          PartsJoin(headers, name, h + 1);
          DisagreementPersists(PartsOf(headers[..h + 1], name), PartsOfRest(headers, name, h + 1), usizeMax);
          return Err(());
        }
        found := scanned.value;
      } else {
        assert PartsOf(headers[..h + 1], name) == PartsOf(headers[..h], name);
      }
    }
    assert headers[..|headers|] == headers;
    return Ok(found);
  }

  lemma NoParts(headers: seq<Field>, name: Bytes, usizeMax: nat)
    requires headers == []
    ensures Agreed(PartsOf(headers, name), usizeMax) == Ok(None)
  {}

  ghost function PartsOfRest(headers: seq<Field>, name: Bytes, h: nat): seq<Bytes>
    requires h <= |headers|
    decreases |headers| - h
  {
    if h == |headers| then []
    else (if SameName(headers[h].0, name) then SplitOn(headers[h].1, COMMA) else [])
         + PartsOfRest(headers, name, h + 1)
  }

  lemma {:induction false} PartsJoin(headers: seq<Field>, name: Bytes, h: nat)
    requires h <= |headers|
    ensures PartsOf(headers[..h], name) + PartsOfRest(headers, name, h) == PartsOf(headers, name)
    decreases |headers| - h
  {
    hide SplitOn, SameName;
    if h == |headers| {
      assert headers[..h] == headers;
    } else {
      PartsJoin(headers, name, h + 1);
      assert headers[..h + 1][..h] == headers[..h];
    }
  }

  lemma {:induction false} DisagreementPersists(a: seq<Bytes>, b: seq<Bytes>, usizeMax: nat)
    requires Agreed(a, usizeMax).Err?
    ensures Agreed(a + b, usizeMax) == Err(())
    decreases |b|
  {
    hide PartLength;
    if b == [] {
      assert a + b == a;
    } else {
      DisagreementPersists(a, b[..|b| - 1], usizeMax);
      assert (a + b)[..|a + b| - 1] == a + b[..|b| - 1];
    }
  }

  /* ----- lines ----- */

  predicate IsCrlf(data: Bytes, i: nat)
    requires i + 1 < |data|
  {
    data[i] == CR && data[i + 1] == LF
  }

  function FindCrlfFrom(data: Bytes, i: nat): (r: Option<nat>)
    ensures r.Some? ==> i <= r.value && r.value + 1 < |data| && IsCrlf(data, r.value)
    ensures r.Some? ==> forall j :: i <= j < r.value ==> !IsCrlf(data, j)
    ensures r.None? ==> forall j :: i <= j < |data| - 1 ==> !IsCrlf(data, j)
    decreases |data| - i
  {
    if i + 1 >= |data| then None
    else if IsCrlf(data, i) then Some(i)
    else FindCrlfFrom(data, i + 1)
  }

  /** Position of the first CR LF. */
  function FindCrlf(data: Bytes): (r: Option<nat>)
    ensures r.Some? ==> r.value + 1 < |data| && IsCrlf(data, r.value)
    ensures r.Some? ==> forall j :: 0 <= j < r.value ==> !IsCrlf(data, j)
    ensures r.None? ==> forall j :: 0 <= j < |data| - 1 ==> !IsCrlf(data, j)
  {
    FindCrlfFrom(data, 0)
  }

  /** More bytes after a line end do not move it. */
  lemma FindCrlfStable(a: Bytes, b: Bytes)
    requires FindCrlf(a).Some?
    ensures FindCrlf(a + b) == FindCrlf(a)
  {
    hide FindCrlf;
    var i := FindCrlf(a).value;
    assert IsCrlf(a + b, i);
    var k := FindCrlf(a + b).value;
    assert k < i ==> IsCrlf(a, k);
  }

  /** A line end that more bytes bring lies past all but the last byte before them. */
  lemma FindCrlfLate(a: Bytes, b: Bytes)
    requires FindCrlf(a).None? && FindCrlf(a + b).Some?
    ensures FindCrlf(a + b).value + 1 >= |a|
  {
    hide FindCrlf;
    var k := FindCrlf(a + b).value;
    assert k + 1 < |a| ==> IsCrlf(a, k);
  }

  /** The chunk size a size line states: hex digits before any extension. */
  function ChunkSize(line: Bytes, usizeMax: nat): Option<nat> {
    var text := Trim(line[..IndexOf(line, SEMICOLON)]);
    if text == [] || !AllHex(text) || Numeral(text, 16) > usizeMax then None
    else Some(Numeral(text, 16))
  }

  /* ----- writing a chunk size ----- */

  function HexDigit(d: nat): bv8
    requires d < 16
  {
    ByteOf(if d < 10 then 48 + d else 87 + d)
  }

  function Hex(n: nat): (s: Bytes)
    ensures s != []
  {
    if n < 16 then [HexDigit(n)] else Hex(n / 16) + [HexDigit(n % 16)]
  }

  lemma HexDigitBack(d: nat)
    requires d < 16
    ensures IsHex(HexDigit(d)) && HexValue(HexDigit(d)) == d
    ensures !IsSpace(HexDigit(d)) && HexDigit(d) != CR && HexDigit(d) != SEMICOLON
  {
    hide ByteOf, ValueOf;
    ByteBack(if d < 10 then 48 + d else 87 + d);
    assert ValueOf(CR) == 13 && ValueOf(SEMICOLON) == 59 by { LiteralValues(); }
  }

  lemma LiteralValues()
    ensures ValueOf(CR) == 13 && ValueOf(SEMICOLON) == 59 && ValueOf(LF) == 10
  {}

  ghost predicate PlainHex(s: Bytes) {
    forall i :: 0 <= i < |s| ==> IsHex(s[i]) && !IsSpace(s[i]) && s[i] != CR && s[i] != SEMICOLON
  }

  lemma {:induction false} HexBack(n: nat)
    ensures PlainHex(Hex(n)) && Numeral(Hex(n), 16) == n
  {
    hide HexDigit, IsHex, IsSpace, HexValue;
    if n < 16 {
      HexDigitBack(n);
      assert Hex(n)[..0] == [];
    } else {
      HexBack(n / 16);
      HexDigitBack(n % 16);
      assert Hex(n)[..|Hex(n)| - 1] == Hex(n / 16);
    }
  }

  lemma TrimNothing(s: Bytes)
    requires s != [] && !IsSpace(s[0]) && !IsSpace(s[|s| - 1])
    ensures Trim(s) == s
  {}

  lemma NoSeparator(s: Bytes, c: bv8)
    requires forall i :: 0 <= i < |s| ==> s[i] != c
    ensures IndexOf(s, c) == |s|
  {}

  lemma SeparatorAt(s: Bytes, c: bv8, rest: Bytes)
    requires forall i :: 0 <= i < |s| ==> s[i] != c
    ensures IndexOf(s + ([c] + rest), c) == |s|
  {
    hide IndexOf;
    var x := s + ([c] + rest);
    assert x[|s|] == c && forall j :: 0 <= j < |s| ==> x[j] == s[j];
  }

  /** A size line that is just the hex number states that number. */
  lemma ChunkSizeOfHex(n: nat, usizeMax: nat)
    requires n <= usizeMax
    ensures ChunkSize(Hex(n), usizeMax) == Some(n)
  {
    hide Hex, Numeral, Trim, IndexOf, IsSpace, IsHex;
    HexBack(n);
    NoSeparator(Hex(n), SEMICOLON);
    assert Hex(n)[..|Hex(n)|] == Hex(n);
    TrimNothing(Hex(n));
  }

  /** The first line end after text without CR is right behind it. */
  lemma FirstLine(s: Bytes, rest: Bytes)
    requires forall i :: 0 <= i < |s| ==> s[i] != CR
    ensures FindCrlf(s + [CR, LF] + rest) == Some(|s|)
  {
    hide FindCrlf;
    var x := s + [CR, LF] + rest;
    assert IsCrlf(x, |s|);
    assert forall j :: 0 <= j < |s| ==> x[j] != CR;
  }
}
