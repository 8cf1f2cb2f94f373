/** Vectors and matrices over GF(2^8). A matrix is a sequence of rows. */
module LinearAlgebra {
  import opened GaloisField

  type Vec = seq<Elem>

  predicate IsMatrix(m: seq<Vec>, rows: nat, cols: nat) {
    |m| == rows && forall i :: 0 <= i < rows ==> |m[i]| == cols
  }

  lemma SameEntries(m: seq<Vec>, n: seq<Vec>, rows: nat, cols: nat)
    requires IsMatrix(m, rows, cols) && IsMatrix(n, rows, cols)
    requires forall i, j :: 0 <= i < rows && 0 <= j < cols ==> m[i][j] == n[i][j]
    ensures m == n
  {
    forall i | 0 <= i < rows ensures m[i] == n[i] {}
  }

  function Zeros(n: nat): (z: Vec)
    ensures |z| == n && forall i :: 0 <= i < n ==> z[i] == 0
  {
    seq(n, _ => 0)
  }

  function Unit(n: nat, k: nat): (u: Vec)
    ensures |u| == n && forall i :: 0 <= i < n ==> u[i] == if i == k then 1 else 0
  {
    seq(n, i => if i == k then 1 else 0)
  }

  function Identity(n: nat): (m: seq<Vec>)
    ensures IsMatrix(m, n, n)
    ensures forall i :: 0 <= i < n ==> m[i] == Unit(n, i)
  {
    seq(n, i => if i < 0 then [] else Unit(n, i))
  }

  function Add(u: Vec, v: Vec): (w: Vec)
    requires |u| == |v|
    ensures |w| == |u| && forall i :: 0 <= i < |u| ==> w[i] == Plus(u[i], v[i])
  {
    seq(|u|, i requires 0 <= i < |u| => Plus(u[i], v[i]))
  }

  function Scale(x: Elem, v: Vec): (w: Vec)
    ensures |w| == |v| && forall i :: 0 <= i < |v| ==> w[i] == Mul(x, v[i])
  {
    seq(|v|, i requires 0 <= i < |v| => Mul(x, v[i]))
  }

  function Dot(u: Vec, v: Vec): Elem
    requires |u| == |v|
  {
    if |u| == 0 then 0 else Plus(Mul(u[0], v[0]), Dot(u[1..], v[1..]))
  }

  function MatVec(m: seq<Vec>, v: Vec): (w: Vec)
    requires IsMatrix(m, |m|, |v|)
    ensures |w| == |m| && forall i :: 0 <= i < |m| ==> w[i] == Dot(m[i], v)
  {
    seq(|m|, i requires 0 <= i < |m| => Dot(m[i], v))
  }

  /** The rows of m combined with the coefficients a. */
  function Combine(a: Vec, m: seq<Vec>, cols: nat): (w: Vec)
    requires IsMatrix(m, |a|, cols)
    ensures |w| == cols
    decreases |a|
  {
    if |a| == 0 then Zeros(cols)
    else Add(Scale(a[0], m[0]), Combine(a[1..], m[1..], cols))
  }

  function MatMul(a: seq<Vec>, b: seq<Vec>, cols: nat): (m: seq<Vec>)
    requires IsMatrix(a, |a|, |b|) && IsMatrix(b, |b|, cols)
    ensures IsMatrix(m, |a|, cols)
    ensures forall i :: 0 <= i < |a| ==> m[i] == Combine(a[i], b, cols)
  {
    seq(|a|, i requires 0 <= i < |a| => Combine(a[i], b, cols))
  }

  ghost predicate IsInverse(a: seq<Vec>, b: seq<Vec>, n: nat) {
    && IsMatrix(a, n, n) && IsMatrix(b, n, n)
    && MatMul(a, b, n) == Identity(n)
    && MatMul(b, a, n) == Identity(n)
  }

  ghost predicate Invertible(a: seq<Vec>, n: nat) {
    exists b :: IsInverse(a, b, n)
  }

  /* ----- scalar identities used below, proved away from the table definitions ----- */

  lemma PlusCommutes(a: Elem, b: Elem)
    ensures Plus(a, b) == Plus(b, a)
  {}

  lemma FourTerms(a: Elem, b: Elem, c: Elem, d: Elem)
    ensures Plus(Plus(a, b), Plus(c, d)) == Plus(Plus(a, c), Plus(b, d))
  {
    hide Plus;
    XorAssociates(a, b, Plus(c, d));
    XorAssociates(b, c, d);
    PlusCommutes(b, c);
    XorAssociates(c, b, d);
    XorAssociates(a, c, Plus(b, d));
  }

  lemma XorCancels(a: Elem, b: Elem)
    ensures Plus(a, a) == 0 && Plus(a, 0) == a && Plus(0, a) == a
    ensures Plus(a, b) == 0 <==> a == b
  {}

  lemma MulZero(a: Elem)
    ensures Mul(a, 0) == 0 && Mul(0, a) == 0
  {}

  lemma MulDistributesLeft(a: Elem, b: Elem, c: Elem)
    ensures Mul(Plus(a, b), c) == Plus(Mul(a, c), Mul(b, c))
  {
    hide Plus, Mul;
    MulCommutes(Plus(a, b), c);
    MulCommutes(a, c);
    MulCommutes(b, c);
    MulDistributes(c, a, b);
  }

  lemma AddTail(u: Vec, v: Vec)
    requires |u| == |v| > 0
    ensures Add(u, v)[1..] == Add(u[1..], v[1..])
  {
    hide Plus;
  }

  lemma ScaleTail(x: Elem, v: Vec)
    requires |v| > 0
    ensures Scale(x, v)[1..] == Scale(x, v[1..])
  {
    hide Plus, Mul;
  }

  /* ----- the dot product is bilinear ----- */

  lemma DotFirst(u: Vec, v: Vec)
    requires |u| == |v| > 0
    ensures Dot(u, v) == Plus(Mul(u[0], v[0]), Dot(u[1..], v[1..]))
  {
    hide Plus, Mul;
  }

  lemma DotEmpty(v: Vec)
    requires |v| == 0
    ensures Dot(v, v) == 0
  {}

  lemma {:induction false} DotAddLeft(u: Vec, v: Vec, w: Vec)
    requires |u| == |v| == |w|
    ensures Dot(Add(u, v), w) == Plus(Dot(u, w), Dot(v, w))
  {
    hide Plus, Mul, Add, Dot;
    if |u| == 0 {
      DotEmpty(u);
      XorCancels(0, 0);
      assert Add(u, v) == u == v == w;
    } else {
      DotFirst(u, w);
      DotFirst(v, w);
      DotFirst(Add(u, v), w);
      DotAddLeft(u[1..], v[1..], w[1..]);
      AddTail(u, v);
      MulDistributesLeft(u[0], v[0], w[0]);
      FourTerms(Mul(u[0], w[0]), Mul(v[0], w[0]), Dot(u[1..], w[1..]), Dot(v[1..], w[1..]));
    }
  }

  lemma {:induction false} DotScaleLeft(x: Elem, u: Vec, w: Vec)
    requires |u| == |w|
    ensures Dot(Scale(x, u), w) == Mul(x, Dot(u, w))
  {
    hide Plus, Mul, Scale, Dot;
    if |u| == 0 {
      DotEmpty(u);
      MulZero(x);
      assert Scale(x, u) == u == w;
    } else {
      DotFirst(u, w);
      DotFirst(Scale(x, u), w);
      DotScaleLeft(x, u[1..], w[1..]);
      ScaleTail(x, u);
      MulAssociates(x, u[0], w[0]);
      MulDistributes(x, Mul(u[0], w[0]), Dot(u[1..], w[1..]));
    }
  }

  lemma {:induction false} DotCommutes(u: Vec, v: Vec)
    requires |u| == |v|
    ensures Dot(u, v) == Dot(v, u)
  {
    hide Plus, Mul;
    if |u| > 0 {
      DotCommutes(u[1..], v[1..]);
      MulCommutes(u[0], v[0]);
    }
  }

  lemma {:induction false} DotZeros(v: Vec)
    ensures Dot(Zeros(|v|), v) == 0
  {
    hide Plus, Mul, Zeros;
    if |v| > 0 {
      DotZeros(v[1..]);
      assert Zeros(|v|)[1..] == Zeros(|v| - 1);
      MulZero(v[0]);
      XorCancels(0, 0);
    }
  }

  lemma {:induction false} DotUnit(v: Vec, k: nat)
    requires k < |v|
    ensures Dot(Unit(|v|, k), v) == v[k]
  {
    hide Plus, Mul, Unit, Zeros;
    if k == 0 {
      assert Unit(|v|, 0)[1..] == Zeros(|v| - 1);
      DotZeros(v[1..]);
      MulOne(v[0]);
      XorCancels(v[0], 0);
    } else {
      assert Unit(|v|, k)[1..] == Unit(|v| - 1, k - 1);
      DotUnit(v[1..], k - 1);
      MulZero(v[0]);
      XorCancels(v[k], 0);
    }
  }

  lemma {:induction false} DotConcat(u: Vec, u': Vec, v: Vec, v': Vec)
    requires |u| == |v| && |u'| == |v'|
    ensures Dot(u + u', v + v') == Plus(Dot(u, v), Dot(u', v'))
  {
    hide Plus, Mul;
    if |u| == 0 {
      assert u + u' == u' && v + v' == v';
      XorCancels(Dot(u', v'), 0);
    } else {
      DotConcat(u[1..], u', v[1..], v');
      assert (u + u')[1..] == u[1..] + u' && (v + v')[1..] == v[1..] + v';
      XorAssociates(Mul(u[0], v[0]), Dot(u[1..], v[1..]), Dot(u', v'));
    }
  }

  lemma XorAssociates(a: Elem, b: Elem, c: Elem)
    ensures Plus(Plus(a, b), c) == Plus(a, Plus(b, c))
  {}

  lemma DotSingle(a: Elem, b: Elem)
    ensures Dot([a], [b]) == Mul(a, b)
  {
    hide Plus, Mul;
    assert [a][1..] == [] && [b][1..] == [];
    XorCancels(Mul(a, b), 0);
  }

  /* ----- row combinations ----- */

  /** Moving a combination across a dot product: (a M) . v = a . (M v). */
  lemma {:induction false} DotCombine(a: Vec, m: seq<Vec>, v: Vec)
    requires IsMatrix(m, |a|, |v|)
    ensures Dot(Combine(a, m, |v|), v) == Dot(a, MatVec(m, v))
  {
    hide Plus, Mul, MatVec, Add, Scale, Zeros;
    if |a| == 0 {
      DotZeros(v);
    } else {
      DotCombine(a[1..], m[1..], v);
      assert MatVec(m, v)[1..] == MatVec(m[1..], v);
      DotAddLeft(Scale(a[0], m[0]), Combine(a[1..], m[1..], |v|), v);
      DotScaleLeft(a[0], m[0], v);
    }
  }

  lemma AddAssociates(u: Vec, v: Vec, w: Vec)
    requires |u| == |v| == |w|
    ensures Add(Add(u, v), w) == Add(u, Add(v, w))
  {
    hide Plus, Add;
    forall i | 0 <= i < |u| ensures Add(Add(u, v), w)[i] == Add(u, Add(v, w))[i] {
      XorAssociates(u[i], v[i], w[i]);
    }
  }

  lemma AddFour(a: Vec, b: Vec, c: Vec, d: Vec)
    requires |a| == |b| == |c| == |d|
    ensures Add(Add(a, b), Add(c, d)) == Add(Add(a, c), Add(b, d))
  {
    hide Plus, Add;
    forall i | 0 <= i < |a|
      ensures Add(Add(a, b), Add(c, d))[i] == Add(Add(a, c), Add(b, d))[i]
    {
      FourTerms(a[i], b[i], c[i], d[i]);
    }
  }

  lemma ScaleSum(x: Elem, y: Elem, v: Vec)
    ensures Scale(Plus(x, y), v) == Add(Scale(x, v), Scale(y, v))
  {
    hide Plus, Mul, Add, Scale;
    forall i | 0 <= i < |v| ensures Scale(Plus(x, y), v)[i] == Add(Scale(x, v), Scale(y, v))[i] {
      MulDistributesLeft(x, y, v[i]);
    }
  }

  lemma ScaleAdd(x: Elem, u: Vec, v: Vec)
    requires |u| == |v|
    ensures Scale(x, Add(u, v)) == Add(Scale(x, u), Scale(x, v))
  {
    hide Plus, Mul, Add, Scale;
    forall i | 0 <= i < |v| ensures Scale(x, Add(u, v))[i] == Add(Scale(x, u), Scale(x, v))[i] {
      MulDistributes(x, u[i], v[i]);
    }
  }

  lemma ScaleScale(x: Elem, y: Elem, v: Vec)
    ensures Scale(Mul(x, y), v) == Scale(x, Scale(y, v))
  {
    hide Plus, Mul, Scale;
    forall i | 0 <= i < |v| ensures Scale(Mul(x, y), v)[i] == Scale(x, Scale(y, v))[i] {
      MulAssociates(x, y, v[i]);
    }
  }

  lemma ScaleByZero(v: Vec)
    ensures Scale(0, v) == Zeros(|v|)
  {
    hide Plus, Mul, Scale, Zeros;
    forall i | 0 <= i < |v| ensures Scale(0, v)[i] == 0 { MulZero(v[i]); }
  }

  lemma ScaleByOne(v: Vec)
    ensures Scale(1, v) == v
  {
    hide Plus, Mul, Scale;
    forall i | 0 <= i < |v| ensures Scale(1, v)[i] == v[i] { MulOne(v[i]); }
  }

  lemma ScaleOfZeros(x: Elem, n: nat)
    ensures Scale(x, Zeros(n)) == Zeros(n)
  {
    hide Plus, Mul, Scale, Zeros;
    forall i | 0 <= i < n ensures Scale(x, Zeros(n))[i] == 0 { MulZero(x); }
  }

  lemma AddZeros(v: Vec)
    ensures Add(v, Zeros(|v|)) == v && Add(Zeros(|v|), v) == v
  {
    hide Plus, Add, Zeros;
    forall i | 0 <= i < |v| ensures Plus(v[i], 0) == v[i] && Plus(0, v[i]) == v[i] { XorCancels(v[i], 0); }
  }

  lemma {:induction false} CombineOfSum(a: Vec, b: Vec, m: seq<Vec>, cols: nat)
    requires |a| == |b| && IsMatrix(m, |a|, cols)
    ensures Combine(Add(a, b), m, cols) == Add(Combine(a, m, cols), Combine(b, m, cols))
  {
    hide Plus, Mul, Add, Scale, Zeros;
    if |a| == 0 {
      AddZeros(Zeros(cols));
    } else {
      CombineOfSum(a[1..], b[1..], m[1..], cols);
      AddTail(a, b);
      ScaleSum(a[0], b[0], m[0]);
      AddFour(Scale(a[0], m[0]), Scale(b[0], m[0]),
              Combine(a[1..], m[1..], cols), Combine(b[1..], m[1..], cols));
    }
  }

  lemma {:induction false} CombineOfScaled(x: Elem, a: Vec, m: seq<Vec>, cols: nat)
    requires IsMatrix(m, |a|, cols)
    ensures Combine(Scale(x, a), m, cols) == Scale(x, Combine(a, m, cols))
  {
    hide Plus, Mul, Add, Scale, Zeros;
    if |a| == 0 {
      ScaleOfZeros(x, cols);
    } else {
      CombineOfScaled(x, a[1..], m[1..], cols);
      ScaleTail(x, a);
      ScaleScale(x, a[0], m[0]);
      ScaleAdd(x, Scale(a[0], m[0]), Combine(a[1..], m[1..], cols));
    }
  }

  lemma {:induction false} CombineZeros(m: seq<Vec>, cols: nat)
    requires IsMatrix(m, |m|, cols)
    ensures Combine(Zeros(|m|), m, cols) == Zeros(cols)
  {
    hide Plus, Mul, Add, Scale, Zeros;
    if |m| > 0 {
      CombineZeros(m[1..], cols);
      assert Zeros(|m|)[1..] == Zeros(|m| - 1);
      ScaleByZero(m[0]);
      AddZeros(Zeros(cols));
    }
  }

  lemma {:induction false} CombineUnit(m: seq<Vec>, k: nat, cols: nat)
    requires IsMatrix(m, |m|, cols) && k < |m|
    ensures Combine(Unit(|m|, k), m, cols) == m[k]
  {
    hide Plus, Mul, Add, Scale, Zeros, Unit;
    if k == 0 {
      assert Unit(|m|, 0)[1..] == Zeros(|m| - 1);
      CombineZeros(m[1..], cols);
      ScaleByOne(m[0]);
      AddZeros(m[0]);
    } else {
      assert Unit(|m|, k)[1..] == Unit(|m| - 1, k - 1);
      CombineUnit(m[1..], k - 1, cols);
      ScaleByZero(m[0]);
      AddZeros(m[k]);
    }
  }

  /** Combining is associative: (a B) C = a (B C). */
  lemma {:induction false} CombineAssociates(a: Vec, b: seq<Vec>, c: seq<Vec>, cols: nat)
    requires IsMatrix(b, |a|, |c|) && IsMatrix(c, |c|, cols)
    ensures Combine(Combine(a, b, |c|), c, cols) == Combine(a, MatMul(b, c, cols), cols)
  {
    hide Plus, Mul, Add, Scale, Zeros, MatMul;
    if |a| == 0 {
      CombineZeros(c, cols);
    } else {
      CombineAssociates(a[1..], b[1..], c, cols);
      assert MatMul(b, c, cols)[1..] == MatMul(b[1..], c, cols);
      CombineOfSum(Scale(a[0], b[0]), Combine(a[1..], b[1..], |c|), c, cols);
      CombineOfScaled(a[0], b[0], c, cols);
    }
  }

  /** Combining one row more, as the inner loops of the decoder do. */
  lemma {:induction false} CombineAppend(a: Vec, x: Elem, m: seq<Vec>, r: Vec, cols: nat)
    requires IsMatrix(m, |a|, cols) && |r| == cols
    ensures Combine(a + [x], m + [r], cols) == Add(Combine(a, m, cols), Scale(x, r))
  {
    hide Plus, Mul, Add, Scale, Zeros;
    if |a| == 0 {
      assert (a + [x])[1..] == [] && (m + [r])[1..] == [];
      assert Combine([], [], cols) == Zeros(cols);
      AddZeros(Scale(x, r));
    } else {
      CombineAppend(a[1..], x, m[1..], r, cols);
      assert (a + [x])[1..] == a[1..] + [x] && (m + [r])[1..] == m[1..] + [r];
      AddAssociates(Scale(a[0], m[0]), Combine(a[1..], m[1..], cols), Scale(x, r));
    }
  }

  /* ----- inverses ----- */

  lemma MatVecIdentity(v: Vec)
    ensures MatVec(Identity(|v|), v) == v
  {
    hide Plus, Mul, Unit, Identity, MatVec;
    forall i | 0 <= i < |v| ensures Dot(Identity(|v|)[i], v) == v[i] { DotUnit(v, i); }
  }

  lemma MatVecAssociates(a: seq<Vec>, b: seq<Vec>, v: Vec)
    requires IsMatrix(a, |a|, |b|) && IsMatrix(b, |b|, |v|)
    ensures MatVec(MatMul(a, b, |v|), v) == MatVec(a, MatVec(b, v))
  {
    hide Plus, Mul, MatVec, MatMul, Dot;
    forall i | 0 <= i < |a|
      ensures MatVec(MatMul(a, b, |v|), v)[i] == MatVec(a, MatVec(b, v))[i]
    {
      DotCombine(a[i], b, v);
    }
  }

  lemma CombineIdentity(v: Vec)
    ensures Combine(v, Identity(|v|), |v|) == v
  {
    hide Plus, Mul, Unit, Identity, MatVec, Dot, Combine;
    var n := |v|;
    var w := Combine(v, Identity(n), n);
    forall j | 0 <= j < n ensures w[j] == v[j] {
      var e := Unit(n, j);
      DotCombine(v, Identity(n), e);
      MatVecIdentity(e);
      DotCommutes(w, e);
      DotUnit(w, j);
      DotCommutes(v, e);
      DotUnit(v, j);
    }
  }

  /** At most one matrix inverts a. */
  lemma InverseIsUnique(a: seq<Vec>, b: seq<Vec>, c: seq<Vec>, n: nat)
    requires IsInverse(a, b, n) && IsInverse(a, c, n)
    ensures b == c
  {
    hide Plus, Mul, Unit, Identity, MatMul, Combine;
    forall i | 0 <= i < n ensures b[i] == c[i] {
      CombineAssociates(b[i], a, c, n);
      CombineIdentity(b[i]);
      CombineUnit(c, i, n);
    }
  }

  /** A matrix with an inverse maps only the zero vector to zero. */
  lemma InvertibleHasNoKernel(a: seq<Vec>, n: nat, v: Vec)
    requires Invertible(a, n) && |v| == n && MatVec(a, v) == Zeros(n)
    ensures v == Zeros(n)
  {
    hide Plus, Mul, MatVec, MatMul, Dot, Zeros, Identity;
    var b :| IsInverse(a, b, n);
    MatVecAssociates(b, a, v);
    MatVecIdentity(v);
    forall i | 0 <= i < n ensures v[i] == 0 {
      DotZeros(b[i]);
      DotCommutes(b[i], Zeros(n));
    }
  }

  /** A product of invertible matrices maps only zero to zero. */
  lemma ProductHasNoKernel(a: seq<Vec>, b: seq<Vec>, n: nat, v: Vec)
    requires IsMatrix(a, n, n) && Invertible(b, n) && |v| == n
    requires forall w :: |w| == n && MatVec(a, w) == Zeros(n) ==> w == Zeros(n)
    requires IsMatrix(b, n, n) && MatVec(MatMul(a, b, n), v) == Zeros(n)
    ensures v == Zeros(n)
  {
    hide Plus, Mul, MatVec, MatMul, Dot, Zeros;
    MatVecAssociates(a, b, v);
    InvertibleHasNoKernel(b, n, v);
  }
}
