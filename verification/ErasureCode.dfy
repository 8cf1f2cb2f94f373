/** Reed-Solomon decoding: the normalised Vandermonde matrix, reconstruction from any k shards, and
    the decoder that trims the result to the original length. */
module ErasureCode {
  import opened ByteValues
  import opened GaloisField
  import opened LinearAlgebra
  import opened MatrixInversion

  /** Shards the field can tell apart. */
  const MAX_SHARDS: nat := 256

  /* ----- polynomials: a vector is the list of coefficients, constant term first ----- */

  ghost function Eval(f: Vec, x: Elem): Elem {
    if |f| == 0 then 0 else Plus(f[0], Mul(x, Eval(f[1..], x)))
  }

  /** The quotient of f by (x - a), by Horner's scheme. */
  ghost function Quotient(f: Vec, a: Elem): (q: Vec)
    ensures |q| == if |f| == 0 then 0 else |f| - 1
  {
    if |f| <= 1 then [] else [Eval(f[1..], a)] + Quotient(f[1..], a)
  }

  lemma RearrangeDivision(c: Elem, x: Elem, a: Elem, e: Elem, q: Elem)
    ensures Plus(c, Mul(x, Plus(e, Mul(Plus(x, a), q))))
         == Plus(Plus(c, Mul(a, e)), Mul(Plus(x, a), Plus(e, Mul(x, q))))
  {
    hide Plus, Mul;
    var d := Plus(x, a);
    MulDistributes(x, e, Mul(d, q));
    MulDistributes(d, e, Mul(x, q));
    MulDistributesLeft(x, a, e);
    MulAssociates(x, d, q);
    MulAssociates(d, x, q);
    MulCommutes(x, d);
    SwallowTwice(c, Mul(a, e), Mul(x, e), Mul(Mul(x, d), q));
  }

  /** c + (y + z) = (c + w) + ((y + w) + z): adding w twice changes nothing. */
  lemma SwallowTwice(c: Elem, w: Elem, y: Elem, z: Elem)
    ensures Plus(c, Plus(y, z)) == Plus(Plus(c, w), Plus(Plus(y, w), z))
  {
    hide Plus;
    PlusCommutes(y, w);
    XorAssociates(w, y, z);
    XorAssociates(c, w, Plus(w, Plus(y, z)));
    XorAssociates(w, w, Plus(y, z));
    XorCancels(w, 0);
    XorCancels(Plus(y, z), 0);
  }

  /** Division with remainder: f(x) = f(a) + (x - a) q(x). */
  lemma {:induction false} EvalDivides(f: Vec, a: Elem, x: Elem)
    ensures Eval(f, x) == Plus(Eval(f, a), Mul(Plus(x, a), Eval(Quotient(f, a), x)))
  {
    hide Plus, Mul;
    if |f| <= 1 {
      MulZero(x);
      MulZero(a);
      MulZero(Plus(x, a));
      XorCancels(Eval(f, a), 0);
      assert |f| == 1 ==> Eval(f[1..], x) == 0 && Eval(f[1..], a) == 0;
    } else {
      var t := f[1..];
      EvalDivides(t, a, x);
      var q := Quotient(f, a);
      assert q[1..] == Quotient(t, a);
      RearrangeDivision(f[0], x, a, Eval(t, a), Eval(Quotient(t, a), x));
    }
  }

  /** A polynomial with root a and zero quotient is zero. */
  lemma {:induction false} ZeroQuotient(f: Vec, a: Elem)
    requires Eval(f, a) == 0 && Quotient(f, a) == Zeros(|Quotient(f, a)|)
    ensures f == Zeros(|f|)
  {
    hide Plus, Mul, Zeros;
    if |f| > 0 {
      var t := f[1..];
      var q := Quotient(f, a);
      if |f| > 1 {
        assert q[0] == 0 && q[1..] == Quotient(t, a);
        assert q[1..] == Zeros(|q| - 1);
        ZeroQuotient(t, a);
      } else {
        assert t == [];
      }
      assert Eval(t, a) == 0;
      MulZero(a);
      XorCancels(f[0], 0);
      assert f == [f[0]] + t;
    }
  }

  /** Root counting: as many distinct roots as coefficients leave only the zero polynomial. */
  lemma {:induction false} TooManyRoots(f: Vec, roots: Vec)
    requires |roots| == |f|
    requires forall i, j :: 0 <= i < j < |roots| ==> roots[i] != roots[j]
    requires forall i :: 0 <= i < |roots| ==> Eval(f, roots[i]) == 0
    ensures f == Zeros(|f|)
    decreases |f|
  {
    hide Plus, Mul, Zeros, Eval, Quotient;
    if |f| > 0 {
      var a, rest := roots[0], roots[1..];
      var q := Quotient(f, a);
      forall i | 0 <= i < |rest| ensures Eval(q, rest[i]) == 0 {
        var x := rest[i];
        EvalDivides(f, a, x);
        XorCancels(Mul(Plus(x, a), Eval(q, x)), 0);
        XorCancels(x, a);
        NoZeroDivisors(Plus(x, a), Eval(q, x));
      }
      TooManyRoots(q, rest);
      ZeroQuotient(f, a);
    }
  }

  /* ----- the Vandermonde matrix ----- */

  /** The evaluation point of a row. Beyond 255 the log table has no entry: a power of such a base is undefined
      in every column but the first, and as a factor or a summand undefined acts like zero, so the row is that
      of zero again. */
  function Point(r: nat): Elem { if r < MAX_SHARDS then ByteOf(r) else 0 }

  /** Rows of one point. */
  predicate SamePoint(r: nat, s: nat) { r == s || ((r == 0 || r >= MAX_SHARDS) && (s == 0 || s >= MAX_SHARDS)) }

  lemma PointsDiffer(r: nat, s: nat)
    ensures Point(r) == Point(s) <==> SamePoint(r, s)
  {
    hide ByteOf, ValueOf;
    if r < MAX_SHARDS { ByteBack(r); }
    if s < MAX_SHARDS { ByteBack(s); }
    ByteBack(0);
    assert ByteOf(0) == 0 by { ZeroByte(); }
  }

  lemma ZeroByte()
    ensures ByteOf(0) == 0
  {}

  ghost function PowerRow(x: Elem, k: nat): (v: Vec)
    ensures |v| == k && forall c :: 0 <= c < k ==> v[c] == Power(x, c)
  {
    seq(k, c requires 0 <= c < k => Power(x, c))
  }

  ghost function Vandermonde(total: nat, k: nat): (v: seq<Vec>)
    ensures IsMatrix(v, total, k)
    ensures forall r :: 0 <= r < total ==> v[r] == PowerRow(Point(r), k)
  {
    seq(total, r requires 0 <= r < total => PowerRow(Point(r), k))
  }

  /** A Vandermonde row against a vector evaluates the vector as a polynomial. */
  lemma {:induction false} PowerRowEvaluates(x: Elem, f: Vec)
    ensures Dot(PowerRow(x, |f|), f) == Eval(f, x)
  {
    hide Plus, Mul, PowerRow;
    if |f| > 0 {
      var row, t := PowerRow(x, |f|), f[1..];
      PowerRowEvaluates(x, t);
      assert row[1..] == Scale(x, PowerRow(x, |t|)) by {
        forall c | 0 <= c < |t| ensures row[1..][c] == Mul(x, Power(x, c)) {}
      }
      DotScaleLeft(x, PowerRow(x, |t|), t);
      assert Power(x, 0) == 1;
      MulOne(f[0]);
    }
  }

  /** The rows of m picked by the indices. */
  function Select<T>(m: seq<T>, idx: seq<nat>): (s: seq<T>)
    requires forall i :: 0 <= i < |idx| ==> idx[i] < |m|
    ensures |s| == |idx| && forall i :: 0 <= i < |idx| ==> s[i] == m[idx[i]]
  {
    seq(|idx|, i requires 0 <= i < |idx| => m[idx[i]])
  }

  ghost predicate Distinct(idx: seq<nat>, bound: nat) {
    && (forall i :: 0 <= i < |idx| ==> idx[i] < bound)
    && (forall i, j :: 0 <= i < j < |idx| ==> idx[i] != idx[j])
  }

  /** No two of the rows have the same point. */
  ghost predicate DistinctPoints(idx: seq<nat>) {
    forall i, j :: 0 <= i < j < |idx| ==> !SamePoint(idx[i], idx[j])
  }

  lemma SmallRowsDiffer(idx: seq<nat>)
    requires Distinct(idx, MAX_SHARDS)
    ensures DistinctPoints(idx)
  {}

  /** Any k rows of the Vandermonde matrix with different points send only zero to zero. */
  lemma VandermondeHasNoKernel(total: nat, k: nat, idx: seq<nat>, v: Vec)
    requires |idx| == k == |v| && Distinct(idx, total) && DistinctPoints(idx)
    requires MatVec(Select(Vandermonde(total, k), idx), v) == Zeros(k)
    ensures v == Zeros(k)
  {
    hide Plus, Mul, Zeros, Eval, Dot, MatVec, PowerRow, Vandermonde, Select, Point;
    var roots := seq(k, i requires 0 <= i < k => Point(idx[i]));
    var rows := Select(Vandermonde(total, k), idx);
    forall i | 0 <= i < k ensures Eval(v, roots[i]) == 0 {
      PowerRowEvaluates(roots[i], v);
      assert Dot(rows[i], v) == MatVec(rows, v)[i];
    }
    forall i, j | 0 <= i < j < k ensures roots[i] != roots[j] {
      PointsDiffer(idx[i], idx[j]);
    }
    TooManyRoots(v, roots);
  }

  ghost function Count(n: nat): (idx: seq<nat>)
    ensures |idx| == n && forall i :: 0 <= i < n ==> idx[i] == i
  {
    seq(n, i requires 0 <= i < n => i)
  }

  lemma TopIsInvertible(k: nat)
    requires k <= MAX_SHARDS
    ensures Invertible(Vandermonde(k, k), k)
  {
    hide Zeros, MatVec, Vandermonde, Invertible, Select, Count;
    var v := KernelOrInverse(Vandermonde(k, k), k);
    if !Invertible(Vandermonde(k, k), k) {
      assert Select(Vandermonde(k, k), Count(k)) == Vandermonde(k, k);
      SmallRowsDiffer(Count(k));
      VandermondeHasNoKernel(k, k, Count(k), v);
    }
  }

  /* ----- the encode matrix ----- */

  ghost function TopInverse(k: nat): (t: seq<Vec>)
    requires k <= MAX_SHARDS
    ensures IsInverse(Vandermonde(k, k), t, k)
  {
    TopIsInvertible(k);
    InverseOf(Vandermonde(k, k), k).value
  }

  /** The Vandermonde matrix normalised so that its top k rows are the identity. */
  ghost function EncodeMatrix(total: nat, k: nat): (m: seq<Vec>)
    requires k <= total && k <= MAX_SHARDS
    ensures IsMatrix(m, total, k)
  {
    MatMul(Vandermonde(total, k), TopInverse(k), k)
  }

  lemma TopRowsAreIdentity(total: nat, k: nat, r: nat)
    requires r < k <= total && k <= MAX_SHARDS
    ensures EncodeMatrix(total, k)[r] == Unit(k, r)
  {
    hide Plus, Mul, Unit, Identity, MatMul, Combine, TopInverse, Vandermonde, PowerRow;
    var t := TopInverse(k);
    assert Vandermonde(total, k)[r] == Vandermonde(k, k)[r];
    assert MatMul(Vandermonde(k, k), t, k)[r] == Identity(k)[r];
  }

  /** Any k rows of the encode matrix with different points can be inverted. */
  lemma AnyRowsInvertible(total: nat, k: nat, idx: seq<nat>)
    requires k <= total && k <= MAX_SHARDS && |idx| == k && Distinct(idx, total) && DistinctPoints(idx)
    ensures Invertible(Select(EncodeMatrix(total, k), idx), k)
  {
    hide Plus, Mul, Zeros, MatVec, MatMul, Combine, TopInverse, Vandermonde, Select, Invertible, Unit, Identity;
    var s := Select(EncodeMatrix(total, k), idx);
    var rows := Select(Vandermonde(total, k), idx);
    var t := TopInverse(k);
    assert s == MatMul(rows, t, k);
    var v := KernelOrInverse(s, k);
    if !Invertible(s, k) {
      forall w: Vec | |w| == k && MatVec(rows, w) == Zeros(k) ensures w == Zeros(k) {
        VandermondeHasNoKernel(total, k, idx, w);
      }
      InverseExists(t, Vandermonde(k, k), k);
      ProductHasNoKernel(rows, t, k, v);
    }
  }

  /** A matrix with two equal rows has no inverse. */
  lemma EqualRowsAreSingular(m: seq<Vec>, k: nat, i: nat, j: nat)
    requires IsMatrix(m, k, k) && i < j < k && m[i] == m[j]
    ensures !Invertible(m, k)
  {
    hide Plus, Mul, MatMul, Combine, Identity;
    if Invertible(m, k) {
      var b :| IsInverse(m, b, k);
      ProductRow(m, b, k, i);
      ProductRow(m, b, k, j);
      UnitsDiffer(k, i, j);
      assert false;
    }
  }

  lemma ProductRow(m: seq<Vec>, b: seq<Vec>, k: nat, i: nat)
    requires IsInverse(m, b, k) && i < k
    ensures Combine(m[i], b, k) == Unit(k, i)
  {
    hide Plus, Mul, Combine, Unit;
    assert MatMul(m, b, k)[i] == Identity(k)[i];
  }

  lemma UnitsDiffer(k: nat, i: nat, j: nat)
    requires i < j < k
    ensures Unit(k, i) != Unit(k, j)
  {
    assert Unit(k, i)[i] != Unit(k, j)[i];
  }

  /** Exactly which k rows of the encode matrix can be inverted: those of which at most one is row 0 or a row
      beyond the field. */
  lemma RowsInvertibleExactly(total: nat, k: nat, idx: seq<nat>)
    requires k <= total && k <= MAX_SHARDS && |idx| == k && Distinct(idx, total)
    ensures Invertible(Select(EncodeMatrix(total, k), idx), k) <==> DistinctPoints(idx)
  {
    hide Plus, Mul, MatMul, Combine, TopInverse, Vandermonde, Select, Invertible, Unit, Identity, SamePoint, PowerRow, Point;
    if DistinctPoints(idx) {
      AnyRowsInvertible(total, k, idx);
    } else {
      var i, j :| 0 <= i < j < |idx| && SamePoint(idx[i], idx[j]);
      PointsDiffer(idx[i], idx[j]);
      SamePointSameRow(total, k, idx[i], idx[j]);
      EqualRowsAreSingular(Select(EncodeMatrix(total, k), idx), k, i, j);
    }
  }

  /* ----- which rows these are ----- */

  /** Row r of the Vandermonde matrix holds the powers of the element with value r. */
  lemma RowsArePowers(total: nat, k: nat, r: nat, c: nat, x: Elem)
    requires r < total && c < k && ValueOf(x) == r
    ensures Vandermonde(total, k)[r][c] == Power(x, c)
  {
    hide Mul, ValueOf;
    ByteBack(r);
    ValueInjective(ByteOf(r), x);
  }

  /** Rows beyond the field hold the powers of zero. */
  lemma RowsBeyondField(total: nat, k: nat, r: nat, c: nat)
    requires MAX_SHARDS <= r < total && c < k
    ensures Vandermonde(total, k)[r][c] == if c == 0 then 1 else 0
  {
    if c > 0 { MulZero(Power(0, c - 1)); }
  }

  /** The k x k matrix of the powers of 0, 1, 2 and so on. */
  ghost predicate PowersOfRows(top: seq<Vec>, k: nat) {
    && IsMatrix(top, k, k)
    && forall x: Elem, c: nat :: ValueOf(x) < k && c < k ==> top[ValueOf(x)][c] == Power(x, c)
  }

  /** Row r of the encode matrix is the one vector that takes the powers of the first k rows to the powers of row
      r. */
  lemma EncodeRowExactly(total: nat, k: nat, r: nat, x: Elem, top: seq<Vec>, powers: Vec, v: Vec)
    requires k <= total && k <= MAX_SHARDS && r < total && ValueOf(x) == r && PowersOfRows(top, k)
    requires |powers| == k && forall c :: 0 <= c < k ==> powers[c] == Power(x, c)
    requires |v| == k
    ensures v == EncodeMatrix(total, k)[r] <==> Combine(v, top, k) == powers
  {
    hide Plus, Mul, MatMul, Combine, TopInverse, Vandermonde, PowerRow, Unit, Identity, Power, ValueOf, Point;
    TopIsVandermonde(top, k);
    forall c | 0 <= c < k ensures powers[c] == Vandermonde(total, k)[r][c] { RowsArePowers(total, k, r, c, x); }
    assert powers == Vandermonde(total, k)[r];
    var t := TopInverse(k);
    CombineAssociates(v, top, t, k);
    CombineIdentity(v);
    CombineAssociates(powers, t, top, k);
    CombineIdentity(powers);
  }

  lemma TopIsVandermonde(top: seq<Vec>, k: nat)
    requires k <= MAX_SHARDS && PowersOfRows(top, k)
    ensures top == Vandermonde(k, k)
  {
    hide Vandermonde, PowerRow, Power, ValueOf, Point;
    var v := Vandermonde(k, k);
    forall r: nat, c: nat | r < k && c < k ensures top[r][c] == v[r][c] {
      ByteBack(r);
      RowsArePowers(k, k, r, c, ByteOf(r));
    }
    SameEntries(top, v, k, k);
  }

  /** The parity row of two data shards and one parity shard. */
  lemma ParityOfTwo()
    ensures EncodeMatrix(3, 2)[2] == [3, 2]
  {
    hide Plus, Mul, Combine, EncodeMatrix, PowersOfRows;
    var top: seq<Vec> := [[1, 0], [1, 1]];
    PowersOfTwoRows(top);
    MulOne(2);
    assert Power(2, 1) == Mul(2, Power(2, 0));
    assert Combine([3, 2], top, 2) == [1, 2] by { CombineTwo(3, 2, top[0], top[1]); MulOne(3); MulZero(3); MulOne(2); PlusSmall(); }
    EncodeRowExactly(3, 2, 2, 2, top, [1, 2], [3, 2]);
  }

  lemma PlusSmall()
    ensures Plus(3, 2) == 1 && Plus(0, 2) == 2
  {}

  lemma CombineTwo(a: Elem, b: Elem, u: Vec, v: Vec)
    requires |u| == |v|
    ensures Combine([a, b], [u, v], |u|) == Add(Scale(a, u), Scale(b, v))
  {
    hide Plus, Mul, Add, Scale, Zeros;
    assert [a, b][1..] == [b] && [u, v][1..] == [v];
    assert [b][1..] == [] && [v][1..] == [];
    assert Combine([], [], |u|) == Zeros(|u|);
    AddZeros(Scale(b, v));
  }

  lemma PowersOfTwoRows(top: seq<Vec>)
    requires top == [[1, 0], [1, 1]]
    ensures PowersOfRows(top, 2)
  {
    hide Mul;
    forall x: Elem, c: nat | ValueOf(x) < 2 && c < 2 ensures top[ValueOf(x)][c] == Power(x, c) {
      assert Power(x, 1) == Mul(x, Power(x, 0));
      assert Power(x, 0) == 1;
      MulOne(x);
      assert x == 0 || x == 1;
    }
  }

  lemma SamePointSameRow(total: nat, k: nat, r: nat, s: nat)
    requires k <= total && k <= MAX_SHARDS && r < total && s < total && Point(r) == Point(s)
    ensures EncodeMatrix(total, k)[r] == EncodeMatrix(total, k)[s]
  {
    hide Plus, Mul, Combine, TopInverse, PowerRow, Point;
    var v := Vandermonde(total, k);
    assert v[r] == v[s];
  }

  /** With more than 256 data shards even the top of the Vandermonde matrix is singular. */
  lemma TopBeyondField(k: nat)
    requires k > MAX_SHARDS
    ensures !Invertible(Vandermonde(k, k), k)
  {
    hide Invertible, PowerRow, Point;
    PointsDiffer(0, MAX_SHARDS);
    EqualRowsAreSingular(Vandermonde(k, k), k, 0, MAX_SHARDS);
  }

  /** Reconstruction undoes encoding: the inverse of the received rows, times the received shards,
      is the data. */
  lemma ReconstructionUndoesEncoding(s: seq<Vec>, inv: seq<Vec>, data: seq<Vec>, k: nat, size: nat, d: nat)
    requires IsInverse(s, inv, k) && IsMatrix(data, k, size) && d < k
    ensures Combine(inv[d], MatMul(s, data, size), size) == data[d]
  {
    hide Plus, Mul, Unit, Identity, MatMul, Combine;
    CombineAssociates(inv[d], s, data, size);
    assert MatMul(inv, s, k)[d] == Identity(k)[d];
    CombineUnit(data, d, size);
  }
}
