/** The field GF(2^8) with polynomial x^8 + x^4 + x^3 + x^2 + 1, as the client computes in it:
    addition is exclusive or, multiplication goes through a log and an exp table of the powers of x.
    The laws below are the field laws of that table arithmetic. */
module GaloisField {
  import opened Arithmetic
  import opened ByteValues

  type Elem = bv8

  /** Addition, and subtraction: the exclusive or of the bits. */
  function Plus(a: Elem, b: Elem): Elem { a ^ b }

  /** Number of nonzero elements, and the period of the powers of x. */
  const PERIOD: nat := 255

  /** Multiplication by x: shift, and reduce by 0x11d when the shift overflows. */
  function Double(b: Elem): Elem {
    (b << 1) ^ (if b & 0x80 != 0 then 0x1d else 0)
  }

  /** x to the power n. */
  function XPow(n: nat): Elem {
    if n == 0 then 1 else Double(XPow(n - 1))
  }

  /** n doublings of b. */
  ghost function Iter(n: nat, b: Elem): Elem {
    if n == 0 then b else Double(Iter(n - 1, b))
  }

  /* ----- doubling is linear and injective ----- */

  lemma ShiftIsLinear(a: Elem, b: Elem)
    ensures (a ^ b) << 1 == (a << 1) ^ (b << 1)
    ensures (a ^ b) & 0x80 == (a & 0x80) ^ (b & 0x80)
  {}

  lemma TopBit(a: Elem)
    ensures a & 0x80 == 0 || a & 0x80 == 0x80
  {}

  lemma DoubleIsLinear(a: Elem, b: Elem)
    ensures Double(a ^ b) == Double(a) ^ Double(b)
  {
    ShiftIsLinear(a, b);
    TopBit(a);
    TopBit(b);
    if a & 0x80 == 0 {
      if b & 0x80 == 0 {} else {}
    } else {
      if b & 0x80 == 0 {} else {}
    }
  }

  lemma DoubleIsInjective(a: Elem, b: Elem)
    requires Double(a) == Double(b)
    ensures a == b
  {}

  lemma {:induction false} IterIsLinear(n: nat, a: Elem, b: Elem)
    ensures Iter(n, a ^ b) == Iter(n, a) ^ Iter(n, b)
  {
    hide Double;
    if n > 0 {
      IterIsLinear(n - 1, a, b);
      DoubleIsLinear(Iter(n - 1, a), Iter(n - 1, b));
    }
  }

  lemma {:induction false} IterZero(n: nat)
    ensures Iter(n, 0) == 0
  {
    if n > 0 { IterZero(n - 1); }
  }

  lemma {:induction false} IterXPow(n: nat, m: nat)
    ensures Iter(n, XPow(m)) == XPow(n + m)
  {
    if n > 0 { IterXPow(n - 1, m); }
  }

  lemma {:induction false} XPowNonZero(n: nat)
    ensures XPow(n) != 0
  {
    if n > 0 {
      XPowNonZero(n - 1);
      if XPow(n) == 0 { DoubleIsInjective(XPow(n - 1), 0); }
    }
  }

  /* ----- x has order exactly 255 = 3 * 5 * 17 ----- */

  function Double4(b: Elem): Elem { Double(Double(Double(Double(b)))) }

  function Leap17(b: Elem): Elem { Double(Double4(Double4(Double4(Double4(b))))) }

  lemma XPowPlus4(n: nat)
    ensures XPow(n + 4) == Double4(XPow(n))
  {
    assert XPow(n + 1) == Double(XPow(n));
    assert XPow(n + 2) == Double(XPow(n + 1));
    assert XPow(n + 3) == Double(XPow(n + 2));
  }

  lemma XPowPlus17(n: nat)
    ensures XPow(n + 17) == Leap17(XPow(n))
  {
    XPowPlus4(n);
    XPowPlus4(n + 4);
    XPowPlus4(n + 8);
    XPowPlus4(n + 12);
  }

  lemma XPow15()
    ensures XPow(15) == 38
  {
    XPowPlus4(0);
    XPowPlus4(4);
    XPowPlus4(8);
    assert XPow(13) == Double(XPow(12));
    assert XPow(14) == Double(XPow(13));
  }

  lemma XPow51()
    ensures XPow(51) == 10
  {
    XPowPlus17(0);
    assert XPow(17) == 152;
    XPowPlus17(17);
    assert XPow(34) == 78;
    XPowPlus17(34);
  }

  lemma XPow85()
    ensures XPow(85) == 214
  {
    XPow51();
    XPowPlus17(51);
    assert XPow(68) == 153;
    XPowPlus17(68);
  }

  lemma XPow170()
    ensures XPow(170) == 215
  {
    XPow85();
    XPowPlus17(85);
    assert XPow(102) == 68;
    XPowPlus17(102);
    assert XPow(119) == 147;
    XPowPlus17(119);
    assert XPow(136) == 79;
    XPowPlus17(136);
    assert XPow(153) == 146;
    XPowPlus17(153);
  }

  lemma XPow255()
    ensures XPow(255) == 1
  {
    XPow170();
    XPowPlus17(170);
    assert XPow(187) == 220;
    XPowPlus17(187);
    assert XPow(204) == 221;
    XPowPlus17(204);
    assert XPow(221) == 69;
    XPowPlus17(221);
    assert XPow(238) == 11;
    XPowPlus17(238);
  }

  /** If x^d is 1, whole multiples of d drop out of an exponent. */
  lemma {:induction false} XPowDrop(q: nat, d: nat, r: nat)
    requires XPow(d) == 1
    ensures XPow(q * d + r) == XPow(r)
  {
    hide Double;
    if q > 0 {
      XPowDrop(q - 1, d, r);
      var rest := (q - 1) * d + r;
      assert rest + d == q * d + r;
      IterXPow(rest, d);
      IterXPow(rest, 0);
    }
  }

  lemma XPowMod(n: nat, d: nat)
    requires d > 0 && XPow(d) == 1
    ensures XPow(n) == XPow(n % d)
  {
    hide Double, XPow;
    DivisionLaw(n, d);
    XPowDrop(n / d, d, n % d);
  }

  /** Euclid's argument: an exponent that gives 1 yields a divisor of 255 that gives 1. */
  lemma {:induction false} OrderDivides(d: nat) returns (e: nat)
    requires 0 < d && XPow(d) == 1
    ensures 0 < e <= d && XPow(e) == 1 && PERIOD % e == 0
    decreases d
  {
    XPow255();
    XPowMod(PERIOD, d);
    var r := PERIOD % d;
    if r == 0 {
      e := d;
    } else {
      e := OrderDivides(r);
    }
  }

  lemma ProperDivisors(e: nat)
    requires 0 < e < 255 && 255 % e == 0
    ensures 15 % e == 0 || 51 % e == 0 || 85 % e == 0
  {
    var q := 255 / e;
    assert e * q == 255;
    if e > 15 {
      assert 1 < q < 16;
      assert q == 2 || q == 3 || q == 4 || q == 5 || q == 6 || q == 7 || q == 8 || q == 9 ||
             q == 10 || q == 11 || q == 12 || q == 13 || q == 14 || q == 15;
      assert e == 85 || e == 51 || e == 17;
    } else {
      assert e == 1 || e == 2 || e == 3 || e == 4 || e == 5 || e == 6 || e == 7 || e == 8 ||
             e == 9 || e == 10 || e == 11 || e == 12 || e == 13 || e == 14 || e == 15;
    }
  }

  lemma OrderOfX(d: nat)
    requires 0 < d < PERIOD
    ensures XPow(d) != 1
  {
    if XPow(d) == 1 {
      var e := OrderDivides(d);
      ProperDivisors(e);
      XPow15();
      XPow51();
      XPow85();
      XPowMod(15, e);
      XPowMod(51, e);
      XPowMod(85, e);
      assert false;
    }
  }

  lemma {:induction false} XPowInjective(i: nat, j: nat)
    requires i < j < PERIOD
    ensures XPow(i) != XPow(j)
  {
    if XPow(i) == XPow(j) {
      if i == 0 {
        OrderOfX(j);
      } else {
        DoubleIsInjective(XPow(i - 1), XPow(j - 1));
        XPowInjective(i - 1, j - 1);
      }
      assert false;
    }
  }

  /* ----- every nonzero element is a power of x: 255 distinct powers fill 255 places ----- */

  ghost function PowerSet(n: nat): set<int> {
    set i: nat | i < n :: ValueOf(XPow(i))
  }

  lemma {:induction false} PowerSetSize(n: nat)
    requires n <= PERIOD
    ensures |PowerSet(n)| == n
  {
    if n == 0 {
      assert PowerSet(0) == {};
    } else {
      PowerSetSize(n - 1);
      forall i: nat | i < n - 1 ensures ValueOf(XPow(i)) != ValueOf(XPow(n - 1)) {
        XPowInjective(i, n - 1);
        if ValueOf(XPow(i)) == ValueOf(XPow(n - 1)) { ValueInjective(XPow(i), XPow(n - 1)); }
      }
      assert PowerSet(n) == PowerSet(n - 1) + {ValueOf(XPow(n - 1))};
    }
  }

  ghost function OneTo(n: nat): (s: set<int>)
    ensures |s| == n
    ensures forall k :: k in s <==> 1 <= k <= n
  {
    if n == 0 then {} else OneTo(n - 1) + {n}
  }

  lemma SubsetOfSameSize(s: set<int>, t: set<int>)
    requires s <= t && |s| == |t|
    ensures s == t
  {
    assert |t - s| == |t| - |s|;
    assert t - s == {};
  }

  lemma PowersFill()
    ensures PowerSet(PERIOD) == OneTo(PERIOD)
  {
    forall k | k in PowerSet(PERIOD) ensures k in OneTo(PERIOD) {
      var i: nat :| i < PERIOD && ValueOf(XPow(i)) == k;
      XPowNonZero(i);
    }
    PowerSetSize(PERIOD);
    SubsetOfSameSize(PowerSet(PERIOD), OneTo(PERIOD));
  }

  /* ----- the discrete logarithm ----- */

  function LogFrom(a: Elem, i: nat): nat
    requires i <= PERIOD
    decreases PERIOD - i
  {
    if i == PERIOD then 0 else if XPow(i) == a then i else LogFrom(a, i + 1)
  }

  /** The log table entry of a. Entry 0 is never written and stays 0. */
  function Log(a: Elem): nat {
    if a == 0 then 0 else LogFrom(a, 0)
  }

  lemma {:induction false} LogFromFinds(a: Elem, i: nat, k: nat)
    requires i <= k < PERIOD && XPow(k) == a
    ensures i <= LogFrom(a, i) < PERIOD && XPow(LogFrom(a, i)) == a
    decreases k - i
  {
    if XPow(i) != a { LogFromFinds(a, i + 1, k); }
  }

  /** exp undoes log on every nonzero element. */
  lemma ExpOfLog(a: Elem)
    requires a != 0
    ensures Log(a) < PERIOD && XPow(Log(a)) == a
  {
    PowersFill();
    assert ValueOf(a) in PowerSet(PERIOD);
    var k: nat :| k < PERIOD && ValueOf(XPow(k)) == ValueOf(a);
    ValueInjective(XPow(k), a);
    LogFromFinds(a, 0, k);
  }

  /** log undoes exp on every exponent below the period. */
  lemma LogOfExp(i: nat)
    requires i < PERIOD
    ensures XPow(i) != 0 && Log(XPow(i)) == i
  {
    XPowNonZero(i);
    ExpOfLog(XPow(i));
    var l := Log(XPow(i));
    if l < i { XPowInjective(l, i); } else if i < l { XPowInjective(i, l); }
  }

  /* ----- the table arithmetic of the client ----- */

  function Mul(a: Elem, b: Elem): Elem {
    if a == 0 || b == 0 then 0 else XPow((Log(a) + Log(b)) % PERIOD)
  }

  /** gfDiv throws on a zero divisor; callers only divide by a nonzero pivot. */
  function Div(a: Elem, b: Elem): Elem
    requires b != 0
  {
    if a == 0 then 0 else
      ExpOfLog(b);
      XPow((Log(a) + PERIOD - Log(b)) % PERIOD)
  }

  function Inv(a: Elem): Elem
    requires a != 0
  {
    Div(1, a)
  }

  /** Multiplying by a nonzero a is Log(a) doublings. */
  lemma MulIsIter(a: Elem, b: Elem)
    requires a != 0
    ensures Mul(a, b) == Iter(Log(a), b)
  {
    if b == 0 {
      IterZero(Log(a));
    } else {
      ExpOfLog(a);
      ExpOfLog(b);
      IterXPow(Log(a), Log(b));
      XPow255();
      XPowMod(Log(a) + Log(b), PERIOD);
    }
  }

  lemma MulCommutes(a: Elem, b: Elem)
    ensures Mul(a, b) == Mul(b, a)
  {}

  lemma MulOne(a: Elem)
    ensures Mul(1, a) == a && Mul(a, 1) == a
  {
    LogOfExp(0);
    if a != 0 { ExpOfLog(a); }
  }

  /** Multiplying by 2 shifts, and reduces by 0x1d what the shift pushes out. */
  lemma MulTwo(a: Elem)
    ensures Mul(2, a) == if a < 0x80 then a << 1 else (a << 1) ^ 0x1d
  {
    LogOfExp(1);
    assert XPow(1) == Double(XPow(0));
    MulIsIter(2, a);
    assert Iter(1, a) == Double(Iter(0, a));
  }

  lemma MulDistributes(a: Elem, b: Elem, c: Elem)
    ensures Mul(a, Plus(b, c)) == Plus(Mul(a, b), Mul(a, c))
  {
    if a != 0 {
      MulIsIter(a, b);
      MulIsIter(a, c);
      MulIsIter(a, b ^ c);
      IterIsLinear(Log(a), b, c);
    }
  }

  lemma LogOfMul(a: Elem, b: Elem)
    requires a != 0 && b != 0
    ensures Mul(a, b) != 0 && Log(Mul(a, b)) == (Log(a) + Log(b)) % PERIOD
  {
    LogOfExp((Log(a) + Log(b)) % PERIOD);
  }

  lemma ModOnce(n: nat)
    requires n < 2 * PERIOD
    ensures n % PERIOD == if n < PERIOD then n else n - PERIOD
  {}

  lemma ModAssociates(x: nat, y: nat, z: nat)
    requires x < PERIOD && y < PERIOD && z < PERIOD
    ensures ((x + y) % PERIOD + z) % PERIOD == (x + (y + z) % PERIOD) % PERIOD
  {
    ModOnce(x + y);
    ModOnce(y + z);
    ModOnce((x + y) % PERIOD + z);
    ModOnce(x + (y + z) % PERIOD);
  }

  lemma MulAssociates(a: Elem, b: Elem, c: Elem)
    ensures Mul(Mul(a, b), c) == Mul(a, Mul(b, c))
  {
    hide Log, XPow, Double;
    if a == 0 || b == 0 || c == 0 {
    } else {
      LogOfMul(a, b);
      LogOfMul(b, c);
      ExpOfLog(a);
      ExpOfLog(b);
      ExpOfLog(c);
      ModAssociates(Log(a), Log(b), Log(c));
      assert Mul(Mul(a, b), c) == XPow((Log(Mul(a, b)) + Log(c)) % PERIOD);
    }
  }

  lemma NoZeroDivisors(a: Elem, b: Elem)
    requires Mul(a, b) == 0
    ensures a == 0 || b == 0
  {
    if a != 0 && b != 0 { LogOfMul(a, b); }
  }

  lemma MulOfInverse(a: Elem)
    requires a != 0
    ensures Inv(a) != 0 && Mul(a, Inv(a)) == 1
  {
    hide Log, Double;
    LogOfExp(0);
    ExpOfLog(a);
    LogOfExp((Log(1) + PERIOD - Log(a)) % PERIOD);
    ModUndo(0, Log(a));
  }

  lemma ModUndo(x: nat, y: nat)
    requires x < PERIOD && y < PERIOD
    ensures ((x + PERIOD - y) % PERIOD + y) % PERIOD == x
    ensures ((x + y) % PERIOD + PERIOD - y) % PERIOD == x
  {
    ModOnce(x + PERIOD - y);
    ModOnce((x + PERIOD - y) % PERIOD + y);
    ModOnce(x + y);
    ModOnce((x + y) % PERIOD + PERIOD - y);
  }

  lemma DivUndoesMul(a: Elem, b: Elem)
    requires b != 0
    ensures Mul(Div(a, b), b) == a && Div(Mul(a, b), b) == a
  {
    hide Log, XPow, Double;
    ExpOfLog(b);
    if a == 0 {
    } else {
      ExpOfLog(a);
      ModUndo(Log(a), Log(b));
      LogOfExp((Log(a) + PERIOD - Log(b)) % PERIOD);
      LogOfMul(a, b);
      assert Div(Mul(a, b), b) == XPow((Log(Mul(a, b)) + PERIOD - Log(b)) % PERIOD);
    }
  }

  /* ----- the tables are what the formulas above assume ----- */

  ghost predicate ExpFilled(exp: seq<Elem>, n: nat) {
    && |exp| == 512 && n <= PERIOD
    && (forall i :: 0 <= i < n ==> exp[i] == XPow(i))
    && (forall i :: PERIOD <= i < PERIOD + n ==> exp[i] == XPow(i - PERIOD))
  }

  ghost predicate LogFilled(log: seq<nat>, n: nat) {
    && |log| == 256 && n <= PERIOD && log[0] == 0
    && (forall i: nat :: i < n ==> log[ValueOf(XPow(i))] == i)
  }

  lemma ExpStep(exp: seq<Elem>, n: nat)
    requires ExpFilled(exp, n) && n < PERIOD
    ensures ExpFilled(exp[n := XPow(n)][n + PERIOD := XPow(n)], n + 1)
  {}

  lemma LogStep(log: seq<nat>, n: nat)
    requires LogFilled(log, n) && n < PERIOD
    ensures LogFilled(log[ValueOf(XPow(n)) := n], n + 1)
  {
    hide XPow, ValueOf;
    XPowNonZero(n);
    forall i: nat | i < n ensures ValueOf(XPow(i)) != ValueOf(XPow(n)) {
      XPowInjective(i, n);
      if ValueOf(XPow(i)) == ValueOf(XPow(n)) { ValueInjective(XPow(i), XPow(n)); }
    }
  }

  lemma LogComplete(log: seq<nat>)
    requires LogFilled(log, PERIOD)
    ensures forall a: Elem :: log[ValueOf(a)] == Log(a)
  {
    hide XPow, ValueOf;
    LogZero();
    forall a: Elem ensures log[ValueOf(a)] == Log(a) {
      if a != 0 { ExpOfLog(a); }
    }
  }

  /** Fills the exp table twice over and the log table once, as the client does at load time. */
  method BuildTables() returns (exp: array<Elem>, log: array<nat>)
    ensures ExpFilled(exp[..], PERIOD) && log.Length == 256
    ensures forall a: Elem :: log[ValueOf(a)] == Log(a)
  {
    hide ExpFilled, LogFilled, XPow, Double, Wide, Narrow, Reduced, Log, ValueOf;
    exp := new Elem[512](_ => 0);
    log := new nat[256](_ => 0);
    var x: bv16 := 1;
    EmptyTables(exp[..], log[..]);
    for i := 0 to PERIOD
      invariant x == Wide(XPow(i))
      invariant ExpFilled(exp[..], i) && LogFilled(log[..], i)
    {
      NarrowWide(XPow(i));
      ExpStep(exp[..], i);
      LogStep(log[..], i);
      exp[i] := Narrow(x);
      exp[i + PERIOD] := Narrow(x);
      log[ValueOf(Narrow(x))] := i;
      x := Reduced(x << 1);
      WideDouble(XPow(i));
      XPowStep(i);
    }
    LogComplete(log[..]);
  }

  lemma EmptyTables(exp: seq<Elem>, log: seq<nat>)
    requires |exp| == 512 && |log| == 256 && log[0] == 0
    ensures ExpFilled(exp, 0) && LogFilled(log, 0) && Wide(XPow(0)) == 1
  {}

  function Wide(a: Elem): bv16 { a as bv16 }

  /** What a byte table keeps of a number. */
  function Narrow(x: bv16): Elem { (x & 0xff) as Elem }

  function Reduced(x: bv16): bv16 { if x >= 256 then x ^ 0x11d else x }

  lemma XPowStep(n: nat)
    ensures XPow(n + 1) == Double(XPow(n))
  {}

  lemma LogZero()
    ensures Log(0) == 0 && ValueOf(0) == 0
  {}

  lemma NarrowWide(a: Elem)
    ensures Narrow(Wide(a)) == a
  {}

  /** One turn of the table loop on 16-bit numbers is one doubling on bytes. */
  lemma WideDouble(a: Elem)
    ensures Wide(Double(a)) == Reduced(Wide(a) << 1)
  {}

  /* ----- powers by squaring ----- */

  ghost function Power(base: Elem, e: nat): Elem {
    if e == 0 then 1 else Mul(base, Power(base, e - 1))
  }

  lemma {:induction false} PowerOfSquare(base: Elem, e: nat)
    ensures Power(Mul(base, base), e) == Power(base, 2 * e)
  {
    if e > 0 {
      PowerOfSquare(base, e - 1);
      MulAssociates(base, base, Power(base, 2 * e - 2));
      assert Power(base, 2 * e) == Mul(base, Power(base, 2 * e - 1));
      assert Power(base, 2 * e - 1) == Mul(base, Power(base, 2 * e - 2));
    }
  }

  /** gfExp_pow: the square-and-multiply loop computes the power, 0 to the power 0 being 1. */
  method PowBySquaring(base: Elem, exponent: nat) returns (r: Elem)
    ensures r == Power(base, exponent)
  {
    if exponent == 0 { return 1; }
    if base == 0 { return 0; }
    r := 1;
    var b, e := base, exponent;
    MulOne(Power(base, exponent));
    while e > 0
      invariant Mul(r, Power(b, e)) == Power(base, exponent)
    {
      ghost var half := e / 2;
      PowerOfSquare(b, half);
      if e % 2 == 1 {
        assert Power(b, e) == Mul(b, Power(b, 2 * half));
        MulAssociates(r, b, Power(b, 2 * half));
        r := Mul(r, b);
      }
      b := Mul(b, b);
      e := e / 2;
    }
    MulOne(r);
  }
}
