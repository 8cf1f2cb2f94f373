/** Bytes and the numbers they stand for. */
module ByteValues {
  type Bytes = seq<bv8>


  function ValueOf(b: bv8): (n: nat)
    ensures n < 256 && (n == 0 <==> b == 0)
  {
    ValueRange(b);
    b as int
  }

  lemma ValueRange(b: bv8)
    ensures 0 <= b as int < 256
    ensures b as int == 0 <==> b == 0
  {}

  lemma ValueInjective(a: bv8, b: bv8)
    requires ValueOf(a) == ValueOf(b)
    ensures a == b
  {}

  /** The byte with value n, by counting up. */
  function ByteOf(n: nat): bv8
    requires n < 256
  {
    if n == 0 then 0 else ByteOf(n - 1) + 1
  }

  lemma NextByte(b: bv8)
    requires ValueOf(b) < 255
    ensures ValueOf(b + 1) == ValueOf(b) + 1
  {}

  lemma {:induction false} ByteBack(n: nat)
    requires n < 256
    ensures ValueOf(ByteOf(n)) == n
  {
    hide ValueOf;
    if n > 0 {
      ByteBack(n - 1);
      NextByte(ByteOf(n - 1));
    }
  }
}
