/** The bincode primitives: little-endian integers, length-prefixed bytes, option tags. `Put` functions
    append to what was written so far; `Get` functions read at a position and say where they stopped. */
module WireFormat {
  import opened ByteValues
  import opened Outcomes
  import opened Arithmetic

  /* ----- integers ----- */

  function Pow256(w: nat): (p: nat)
    ensures p > 0
  {
    if w == 0 then 1 else 256 * Pow256(w - 1)
  }

  /** n in w bytes, least significant first; higher bytes are dropped, as the typed setters do. */
  function LittleEndian(n: nat, w: nat): (b: Bytes)
    ensures |b| == w
  {
    if w == 0 then [] else [ByteOf(n % 256)] + LittleEndian(n / 256, w - 1)
  }

  function FromLittleEndian(b: Bytes): nat {
    if b == [] then 0 else ValueOf(b[0]) + 256 * FromLittleEndian(b[1..])
  }

  lemma ByteDivision(n: nat, p: nat)
    requires n < 256 * p
    ensures n / 256 < p && n == 256 * (n / 256) + n % 256
  {}

  lemma {:induction false} LittleEndianBack(n: nat, w: nat)
    requires n < Pow256(w)
    ensures FromLittleEndian(LittleEndian(n, w)) == n
  {
    if w > 0 {
      hide ByteOf, ValueOf;
      ByteDivision(n, Pow256(w - 1));
      LittleEndianBack(n / 256, w - 1);
      ByteBack(n % 256);
      assert LittleEndian(n, w)[1..] == LittleEndian(n / 256, w - 1);
    }
  }

  lemma Widths()
    ensures Pow256(1) == 256 && Pow256(2) == 65536
    ensures Pow256(4) == 4294967296 && Pow256(8) == 18446744073709551616
  {
    assert Pow256(3) == 256 * Pow256(2);
    assert Pow256(4) == 256 * Pow256(3);
    assert Pow256(5) == 256 * Pow256(4);
    assert Pow256(6) == 256 * Pow256(5);
    assert Pow256(7) == 256 * Pow256(6);
  }

  /* ----- JavaScript numbers ----- */

  const TWO_53: nat := 9007199254740992

  /** The double nearest to n (ties to even), for an n read as a 64-bit integer. */
  function NumberOf(n: nat): nat { RoundTo(n, 1) }

  function RoundTo(n: nat, unit: nat): nat
    requires unit > 0
    decreases n / unit
  {
    if n < TWO_53 * unit then
      var q, r := n / unit, n % unit;
      if 2 * r < unit || (2 * r == unit && q % 2 == 0) then q * unit else (q + 1) * unit
    else
      HalvesDecrease(n, unit);
      RoundTo(n, 2 * unit)
  }

  lemma HalvesDecrease(n: nat, unit: nat)
    requires unit > 0 && n >= TWO_53 * unit
    ensures n / (2 * unit) < n / unit
  {
    var q, q2 := n / unit, n / (2 * unit);
    DivisionLaw(n, unit);
    DivisionLaw(n, 2 * unit);
    assert (2 * q2) * unit == q2 * (2 * unit);
    CancelLess(2 * q2, q + 1, unit);
    CancelLess(TWO_53, q + 1, unit);
  }

  lemma CancelLess(a: int, b: int, unit: nat)
    requires unit > 0 && a * unit < b * unit
    ensures a < b
  {}

  lemma SmallNumbersExact(n: nat)
    requires n < TWO_53
    ensures NumberOf(n) == n
  {}

  /* ----- writing ----- */

  function PutUint(out: Bytes, n: nat, w: nat): Bytes { out + LittleEndian(n, w) }

  function PutFixed(out: Bytes, v: Bytes): Bytes { out + v }

  function PutBytes(out: Bytes, v: Bytes): Bytes { PutFixed(PutUint(out, |v|, 8), v) }

  function PutOptBytes(out: Bytes, v: Option<Bytes>): Bytes {
    if v.None? then PutUint(out, 0, 1) else PutBytes(PutUint(out, 1, 1), v.value)
  }

  /* ----- reading ----- */

  datatype Fault = UnexpectedEnd | BadBool | BadOptionTag | InlineSurbs | UnknownVariant
                 | BadVersion | TrailingBytes

  datatype Read<+T> = Got(value: T, next: nat) | Bad(fault: Fault) {
    predicate IsFailure() { Bad? }
    function PropagateFailure<U>(): Read<U>
      requires Bad?
    {
      Bad(fault)
    }
    function Extract(): (T, nat)
      requires Got?
    {
      (value, next)
    }
  }

  function GetUint(buf: Bytes, pos: nat, w: nat): Read<nat> {
    if pos + w > |buf| then Bad(UnexpectedEnd)
    else Got(FromLittleEndian(buf[pos..pos + w]), pos + w)
  }

  function GetFixed(buf: Bytes, pos: nat, n: nat): Read<Bytes> {
    if pos + n > |buf| then Bad(UnexpectedEnd) else Got(buf[pos..pos + n], pos + n)
  }

  function GetBytes(buf: Bytes, pos: nat): Read<Bytes> {
    var (len, pos) :- GetUint(buf, pos, 8);
    GetFixed(buf, pos, NumberOf(len))
  }

  /** optString: any nonzero tag announces a value. */
  function GetOptBytes(buf: Bytes, pos: nat): Read<Option<Bytes>> {
    var (tag, pos) :- GetUint(buf, pos, 1);
    if tag == 0 then Got(None, pos)
    else
      var (v, pos) :- GetBytes(buf, pos);
      Got(Some(v), pos)
  }

  function GetBool(buf: Bytes, pos: nat): Read<bool> {
    var (v, pos) :- GetUint(buf, pos, 1);
    if v > 1 then Bad(BadBool) else Got(v == 1, pos)
  }

  /* ----- reading back what was written, whatever surrounds it ----- */

  /** Buffers whose contents a platform array can hold. */
  predicate Holdable(v: Bytes) { |v| < TWO_53 }

  lemma UintBack(buf: Bytes, out: Bytes, n: nat, w: nat)
    requires PutUint(out, n, w) <= buf && n < Pow256(w)
    ensures out <= buf && GetUint(buf, |out|, w) == Got(n, |PutUint(out, n, w)|)
  {
    assert buf[|out|..|out| + w] == LittleEndian(n, w);
    LittleEndianBack(n, w);
  }

  lemma FixedBack(buf: Bytes, out: Bytes, v: Bytes)
    requires PutFixed(out, v) <= buf
    ensures out <= buf && GetFixed(buf, |out|, |v|) == Got(v, |PutFixed(out, v)|)
  {
    assert buf[|out|..|out| + |v|] == v;
  }

  lemma BytesBack(buf: Bytes, out: Bytes, v: Bytes)
    requires PutBytes(out, v) <= buf && Holdable(v)
    ensures out <= buf && GetBytes(buf, |out|) == Got(v, |PutBytes(out, v)|)
  {
    hide PutUint, PutFixed, GetUint, GetFixed, Pow256;
    Widths();
    SmallNumbersExact(|v|);
    FixedBack(buf, PutUint(out, |v|, 8), v);
    UintBack(buf, out, |v|, 8);
  }

  lemma OptBytesBack(buf: Bytes, out: Bytes, v: Option<Bytes>)
    requires PutOptBytes(out, v) <= buf && (v.Some? ==> Holdable(v.value))
    ensures out <= buf && GetOptBytes(buf, |out|) == Got(v, |PutOptBytes(out, v)|)
  {
    hide PutUint, PutBytes, GetUint, GetBytes, Pow256;
    Widths();
    if v.None? {
      UintBack(buf, out, 0, 1);
    } else {
      BytesBack(buf, PutUint(out, 1, 1), v.value);
      UintBack(buf, out, 1, 1);
    }
  }

  lemma BoolBack(buf: Bytes, out: Bytes, v: bool)
    requires PutUint(out, if v then 1 else 0, 1) <= buf
    ensures out <= buf && GetBool(buf, |out|) == Got(v, |PutUint(out, if v then 1 else 0, 1)|)
  {
    hide PutUint, GetUint, Pow256;
    Widths();
    UintBack(buf, out, if v then 1 else 0, 1);
  }
}
