/** The binary claim batch: a version byte, a 16-bit count, and per item a flag byte, a 16-bit id length,
    the id, a 32-bit data length and the data; integers are big-endian. */
module ClaimBatch {
  import opened Outcomes
  import opened ByteValues
  import opened WireFormat
  import ByteBuffers

  const CLAIM_BATCH_VERSION: nat := 1
  const RECLAIMED: nat := 1

  datatype ClaimedItem = ClaimedItem(id: Bytes, data: Bytes, reclaimed: bool)

  datatype Malformed = Truncated | UnknownVersion | EmptyId | UnprintableId | BytesAfterLastItem

  /* ----- big-endian integers ----- */

  function BigEndian(n: nat, w: nat): (b: Bytes)
    ensures |b| == w
  {
    if w == 0 then [] else BigEndian(n / 256, w - 1) + [ByteOf(n % 256)]
  }

  function FromBigEndian(b: Bytes): nat {
    if b == [] then 0 else 256 * FromBigEndian(b[..|b| - 1]) + ValueOf(b[|b| - 1])
  }

  lemma {:induction false} BigEndianBack(n: nat, w: nat)
    requires n < Pow256(w)
    ensures FromBigEndian(BigEndian(n, w)) == n
  {
    hide ByteOf, ValueOf, FromBigEndian;
    if w == 0 {
      EmptyIsZero();
    } else {
      ByteDivision(n, Pow256(w - 1));
      BigEndianBack(n / 256, w - 1);
      ByteBack(n % 256);
      LastByte(BigEndian(n / 256, w - 1), n % 256);
    }
  }

  lemma EmptyIsZero()
    ensures FromBigEndian([]) == 0
  {}

  lemma LastByte(front: Bytes, v: nat)
    requires v < 256 && ValueOf(ByteOf(v)) == v
    ensures FromBigEndian(front + [ByteOf(v)]) == 256 * FromBigEndian(front) + v
  {
    hide ByteOf, ValueOf;
    assert (front + [ByteOf(v)])[..|front|] == front;
  }

  /* ----- encoding ----- */

  function PutBig(out: Bytes, n: nat, w: nat): Bytes { out + BigEndian(n, w) }

  function FlagOf(item: ClaimedItem): nat { if item.reclaimed then RECLAIMED else 0 }

  function PutItem(out: Bytes, item: ClaimedItem): Bytes {
    var out := PutBig(out, FlagOf(item), 1);
    var out := PutFixed(PutBig(out, |item.id|, 2), item.id);
    PutFixed(PutBig(out, |item.data|, 4), item.data)
  }

  function PutItems(out: Bytes, items: seq<ClaimedItem>): Bytes {
    if items == [] then out
    else PutItem(PutItems(out, items[..|items| - 1]), items[|items| - 1])
  }

  function Header(count: nat): Bytes { PutBig(PutBig([], CLAIM_BATCH_VERSION, 1), count, 2) }

  function Encoded(items: seq<ClaimedItem>): Bytes { PutItems(Header(|items|), items) }

  /* ----- decoding ----- */

  datatype Taken<+T> = Taken(value: T, next: nat) | Failed(why: Malformed) {
    predicate IsFailure() { Failed? }
    function PropagateFailure<U>(): Taken<U>
      requires Failed?
    {
      Failed(why)
    }
    function Extract(): (T, nat)
      requires Taken?
    {
      (value, next)
    }
  }

  function TakeBig(body: Bytes, pos: nat, w: nat): Taken<nat> {
    if pos + w > |body| then Failed(Truncated)
    else Taken(FromBigEndian(body[pos..pos + w]), pos + w)
  }

  function TakeFixed(body: Bytes, pos: nat, n: nat): Taken<Bytes> {
    if pos + n > |body| then Failed(Truncated) else Taken(body[pos..pos + n], pos + n)
  }

  predicate PrintableByte(b: bv8) { 0x20 <= ValueOf(b) <= 0x7e }

  predicate Printable(id: Bytes) { forall i :: 0 <= i < |id| ==> PrintableByte(id[i]) }

  function TakeItem(body: Bytes, pos: nat): Taken<ClaimedItem> {
    if pos + 3 > |body| then Failed(Truncated)
    else
      var (flags, pos) :- TakeBig(body, pos, 1);
      var (idLength, pos) :- TakeBig(body, pos, 2);
      if idLength == 0 then Failed(EmptyId)
      else
        var (id, pos) :- TakeFixed(body, pos, idLength);
        if !Printable(id) then Failed(UnprintableId)
        else
          var (dataLength, pos) :- TakeBig(body, pos, 4);
          var (data, pos) :- TakeFixed(body, pos, dataLength);
          Taken(ClaimedItem(id, data, flags % 2 == 1), pos)
  }

  function TakeItems(body: Bytes, pos: nat, count: nat): Taken<seq<ClaimedItem>> {
    if count == 0 then Taken([], pos)
    else
      var (front, pos) :- TakeItems(body, pos, count - 1);
      var (item, pos) :- TakeItem(body, pos);
      Taken(front + [item], pos)
  }

  function Decoded(body: Bytes): Result<seq<ClaimedItem>, Malformed> {
    if |body| < 3 then Err(Truncated)
    else if FromBigEndian(body[..1]) != CLAIM_BATCH_VERSION then Err(UnknownVersion)
    else
      match TakeItems(body, 3, FromBigEndian(body[1..3]))
      case Failed(why) => Err(why)
      case Taken(items, pos) => if pos != |body| then Err(BytesAfterLastItem) else Ok(items)
  }

  /* ----- round trip ----- */

  /** Items a batch can carry: printable non-empty ids and lengths within their fields. */
  predicate Carriable(item: ClaimedItem) {
    && 0 < |item.id| < 0x1_0000 && Printable(item.id) && |item.data| < 0x1_0000_0000
  }

  lemma BigBack(body: Bytes, out: Bytes, n: nat, w: nat)
    requires PutBig(out, n, w) <= body && n < Pow256(w)
    ensures out <= body && TakeBig(body, |out|, w) == Taken(n, |PutBig(out, n, w)|)
  {
    assert body[|out|..|out| + w] == BigEndian(n, w);
    BigEndianBack(n, w);
  }

  lemma FixedTaken(body: Bytes, out: Bytes, v: Bytes)
    requires PutFixed(out, v) <= body
    ensures out <= body && TakeFixed(body, |out|, |v|) == Taken(v, |PutFixed(out, v)|)
  {
    assert body[|out|..|out| + |v|] == v;
  }

  lemma ItemBack(body: Bytes, out: Bytes, item: ClaimedItem)
    requires PutItem(out, item) <= body && Carriable(item)
    ensures out <= body && TakeItem(body, |out|) == Taken(item, |PutItem(out, item)|)
  {
    hide PutBig, PutFixed, TakeBig, TakeFixed, Pow256, Printable;
    Widths();
    var o1 := PutBig(out, FlagOf(item), 1);
    var o2 := PutBig(o1, |item.id|, 2);
    var o3 := PutFixed(o2, item.id);
    var o4 := PutBig(o3, |item.data|, 4);
    FixedTaken(body, o4, item.data);
    BigBack(body, o3, |item.data|, 4);
    FixedTaken(body, o2, item.id);
    BigBack(body, o1, |item.id|, 2);
    BigBack(body, out, FlagOf(item), 1);
    PutBigLength(out, FlagOf(item), 1);
    PutBigLength(o1, |item.id|, 2);
  }

  lemma PutBigLength(out: Bytes, n: nat, w: nat)
    ensures |PutBig(out, n, w)| == |out| + w
  {}

  lemma {:induction false} ItemsBack(body: Bytes, out: Bytes, items: seq<ClaimedItem>)
    requires PutItems(out, items) <= body && forall i :: 0 <= i < |items| ==> Carriable(items[i])
    ensures out <= body && TakeItems(body, |out|, |items|) == Taken(items, |PutItems(out, items)|)
    decreases |items|
  {
    hide PutItem, TakeItem, Carriable;
    if items != [] {
      var front, last := items[..|items| - 1], items[|items| - 1];
      ItemBack(body, PutItems(out, front), last);
      ItemsBack(body, out, front);
      assert front + [last] == items;
    }
  }

  /** decodeBinaryClaim undoes encodeBinaryClaim. */
  lemma BatchRoundTrip(items: seq<ClaimedItem>)
    requires |items| < 0x1_0000 && forall i :: 0 <= i < |items| ==> Carriable(items[i])
    ensures Decoded(Encoded(items)) == Ok(items)
  {
    hide PutBig, TakeBig, PutItems, TakeItems, Pow256, Carriable;
    Widths();
    var body := Encoded(items);
    var o1 := PutBig([], CLAIM_BATCH_VERSION, 1);
    ItemsBack(body, Header(|items|), items);
    BigBack(body, o1, |items|, 2);
    BigBack(body, [], CLAIM_BATCH_VERSION, 1);
    PutBigLength([], CLAIM_BATCH_VERSION, 1);
    PutBigLength(o1, |items|, 2);
    TakeBigIs(body, 0, 1);
    TakeBigIs(body, 1, 2);
    assert body[0..1] == body[..1];
  }

  lemma TakeBigIs(body: Bytes, pos: nat, w: nat)
    requires pos + w <= |body|
    ensures TakeBig(body, pos, w) == Taken(FromBigEndian(body[pos..pos + w]), pos + w)
  {}

  /* ----- the loops ----- */

  ghost function ItemLength(item: ClaimedItem): nat { 7 + |item.id| + |item.data| }

  ghost function ItemsLength(items: seq<ClaimedItem>): nat {
    if items == [] then 0 else ItemsLength(items[..|items| - 1]) + ItemLength(items[|items| - 1])
  }

  lemma {:induction false} PutItemsLength(out: Bytes, items: seq<ClaimedItem>)
    ensures |PutItems(out, items)| == |out| + ItemsLength(items)
  {
    if items != [] { PutItemsLength(out, items[..|items| - 1]); }
  }

  lemma {:induction false} LengthGrows(items: seq<ClaimedItem>, i: nat)
    requires i < |items|
    ensures ItemsLength(items[..i]) + ItemLength(items[i]) <= ItemsLength(items)
    ensures ItemsLength(items[..i + 1]) == ItemsLength(items[..i]) + ItemLength(items[i])
    decreases |items|
  {
    assert items[..i + 1][..i] == items[..i];
    if i + 1 < |items| {
      var front := items[..|items| - 1];
      LengthGrows(front, i);
      assert front[..i] == items[..i];
    } else {
      assert items[..i + 1] == items;
    }
  }

  /** Writes v at an offset of a buffer filled up to there. */
  method Place(out: array<bv8>, offset: nat, v: Bytes, ghost done: Bytes)
    requires offset + |v| <= out.Length && out[..offset] == done
    modifies out
    ensures out[..offset + |v|] == done + v
  {
    ByteBuffers.CopyInto(out, offset, v, |v|);
    assert out[..offset + |v|] == out[..][..offset + |v|];
    assert v[..|v|] == v;
  }

  /** encodeBinaryClaim: fills one array of the exact total size. */
  method EncodeBinaryClaim(items: seq<ClaimedItem>) returns (body: Bytes)
    ensures body == Encoded(items)
  {
    hide BigEndian;
    var total := 3;
    for i := 0 to |items|
      invariant total == 3 + ItemsLength(items[..i])
    {
      LengthGrows(items, i);
      total := total + 7 + |items[i].id| + |items[i].data|;
    }
    assert items[..|items|] == items;
    var out := new bv8[total];
    Place(out, 0, BigEndian(CLAIM_BATCH_VERSION, 1), []);
    Place(out, 1, BigEndian(|items|, 2), BigEndian(CLAIM_BATCH_VERSION, 1));
    var offset := 3;
    assert out[..3] == Header(|items|);
    for i := 0 to |items|
      invariant offset == 3 + ItemsLength(items[..i]) <= out.Length
      invariant out[..offset] == PutItems(Header(|items|), items[..i])
    {
      LengthGrows(items, i);
      assert items[..i + 1][..i] == items[..i];
      offset := PlaceItem(out, offset, items[i], PutItems(Header(|items|), items[..i]));
    }
    body := out[..];
    PutItemsLength(Header(|items|), items);
    assert body == out[..offset];
  }

  method PlaceItem(out: array<bv8>, offset: nat, item: ClaimedItem, ghost done: Bytes) returns (next: nat)
    requires offset + ItemLength(item) <= out.Length && out[..offset] == done
    modifies out
    ensures next == offset + ItemLength(item) && out[..next] == PutItem(done, item)
  {
    hide BigEndian;
    Place(out, offset, BigEndian(FlagOf(item), 1), done);
    Place(out, offset + 1, BigEndian(|item.id|, 2), PutBig(done, FlagOf(item), 1));
    ghost var d := PutBig(PutBig(done, FlagOf(item), 1), |item.id|, 2);
    Place(out, offset + 3, item.id, d);
    d := PutFixed(d, item.id);
    next := offset + 3 + |item.id|;
    Place(out, next, BigEndian(|item.data|, 4), d);
    d := PutBig(d, |item.data|, 4);
    Place(out, next + 4, item.data, d);
    next := next + 4 + |item.data|;
  }

  lemma {:induction false} FailuresPersist(body: Bytes, pos: nat, i: nat, count: nat)
    requires i <= count && TakeItems(body, pos, i).Failed?
    ensures TakeItems(body, pos, count) == TakeItems(body, pos, i)
  {
    hide TakeItem;
    if i < count { FailuresPersist(body, pos, i, count - 1); }
  }

  /** decodeBinaryClaim: walks an offset over the body; any malformed item fails the whole batch. */
  method DecodeBinaryClaim(body: Bytes) returns (r: Result<seq<ClaimedItem>, Malformed>)
    ensures r == Decoded(body)
  {
    hide TakeItem, FromBigEndian;
    if |body| < 3 { return Err(Truncated); }
    if FromBigEndian(body[..1]) != CLAIM_BATCH_VERSION { return Err(UnknownVersion); }
    var count := FromBigEndian(body[1..3]);
    var offset := 3;
    var items: seq<ClaimedItem> := [];
    for index := 0 to count
      invariant TakeItems(body, 3, index) == Taken(items, offset)
    {
      var item := ReadItem(body, offset);
      if item.Failed? {
        FailuresPersist(body, 3, index + 1, count);
        return Err(item.why);
      }
      items := items + [item.value];
      offset := item.next;
    }
    return if offset != |body| then Err(BytesAfterLastItem) else Ok(items);
  }

  method ReadItem(body: Bytes, start: nat) returns (r: Taken<ClaimedItem>)
    ensures r == TakeItem(body, start)
  {
    hide FromBigEndian;
    var offset := start;
    if |body| - offset < 3 { return Failed(Truncated); }
    var flags := FromBigEndian(body[offset..offset + 1]);
    var idLength := FromBigEndian(body[offset + 1..offset + 3]);
    offset := offset + 3;
    if idLength == 0 { return Failed(EmptyId); }
    if |body| - offset < idLength { return Failed(Truncated); }
    var id := body[offset..offset + idLength];
    for i := 0 to idLength
      invariant forall j :: 0 <= j < i ==> PrintableByte(id[j])
    {
      if !PrintableByte(id[i]) {
        assert !Printable(id);
        return Failed(UnprintableId);
      }
    }
    offset := offset + idLength;
    if |body| - offset < 4 { return Failed(Truncated); }
    var dataLength := FromBigEndian(body[offset..offset + 4]);
    offset := offset + 4;
    if |body| - offset < dataLength { return Failed(Truncated); }
    var data := body[offset..offset + dataLength];
    return Taken(ClaimedItem(id, data, flags % 2 == 1), offset + dataLength);
  }
}
