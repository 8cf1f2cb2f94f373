/** Gauss-Jordan inversion over GF(2^8) on an augmented matrix that is changed in place.
    The loop keeps one fact: row operations do not change which vectors the augmented matrix sends
    to zero. From it follow both halves of "inverse" and the kernel vector of a singular input. */
module MatrixInversion {
  import opened GaloisField
  import opened LinearAlgebra
  import opened Outcomes

  ghost predicate InKernel(m: seq<Vec>, w: Vec) {
    IsMatrix(m, |m|, |w|) && forall i :: 0 <= i < |m| ==> Dot(m[i], w) == 0
  }

  ghost predicate SameKernel(m: seq<Vec>, n: seq<Vec>, cols: nat) {
    forall w: Vec :: |w| == cols ==> (InKernel(m, w) <==> InKernel(n, w))
  }

  /** The matrix with the identity to its right. */
  function Augment(a: seq<Vec>, n: nat): (m: seq<Vec>)
    requires IsMatrix(a, n, n)
    ensures IsMatrix(m, n, 2 * n)
    ensures forall i :: 0 <= i < n ==> m[i] == a[i] + Unit(n, i)
  {
    seq(n, i requires 0 <= i < n => a[i] + Unit(n, i))
  }

  /** The first col columns of m are those of the identity. */
  ghost predicate UnitColumns(m: seq<Vec>, n: nat, col: nat) {
    && IsMatrix(m, n, 2 * n) && col <= n
    && forall i, j :: 0 <= i < n && 0 <= j < col ==> m[i][j] == if i == j then 1 else 0
  }

  /* ----- the three row operations keep the kernel ----- */

  lemma SwapKeepsKernel(m: seq<Vec>, i: nat, j: nat, cols: nat)
    requires IsMatrix(m, |m|, cols) && i < |m| && j < |m|
    ensures SameKernel(m[i := m[j]][j := m[i]], m, cols)
  {
    hide Dot;
    var s := m[i := m[j]][j := m[i]];
    assert s[i := s[j]][j := s[i]] == m;
    forall w: Vec | |w| == cols ensures InKernel(s, w) <==> InKernel(m, w) {
      if InKernel(s, w) {
        assert Dot(s[i], w) == 0 && Dot(s[j], w) == 0;
        assert Dot(m[i], w) == 0 && Dot(m[j], w) == 0;
        forall k | 0 <= k < |m| ensures Dot(m[k], w) == 0 {
          if k != i && k != j { assert m[k] == s[k]; }
        }
      }
    }
  }

  lemma ScaleKeepsKernel(m: seq<Vec>, r: nat, f: Elem, cols: nat)
    requires IsMatrix(m, |m|, cols) && r < |m| && f != 0
    ensures SameKernel(m[r := Scale(f, m[r])], m, cols)
  {
    hide Dot, Scale, Mul;
    var s := m[r := Scale(f, m[r])];
    forall w: Vec | |w| == cols ensures InKernel(s, w) <==> InKernel(m, w) {
      DotScaleLeft(f, m[r], w);
      if InKernel(m, w) {
        MulZero(f);
      }
      if InKernel(s, w) {
        assert Dot(s[r], w) == 0;
        NoZeroDivisors(f, Dot(m[r], w));
        forall k | 0 <= k < |m| ensures Dot(m[k], w) == 0 {
          if k != r { assert m[k] == s[k]; }
        }
      }
    }
  }

  lemma AddRowKeepsKernel(m: seq<Vec>, r: nat, p: nat, f: Elem, cols: nat)
    requires IsMatrix(m, |m|, cols) && r < |m| && p < |m| && r != p
    ensures SameKernel(m[r := Add(m[r], Scale(f, m[p]))], m, cols)
  {
    hide Dot, Scale, Mul, Add, Plus;
    var s := m[r := Add(m[r], Scale(f, m[p]))];
    forall w: Vec | |w| == cols ensures InKernel(s, w) <==> InKernel(m, w) {
      DotAddLeft(m[r], Scale(f, m[p]), w);
      DotScaleLeft(f, m[p], w);
      MulZero(f);
      XorCancels(Dot(m[r], w), 0);
      if InKernel(s, w) {
        assert Dot(s[p], w) == 0 && Dot(s[r], w) == 0;
        forall k | 0 <= k < |m| ensures Dot(m[k], w) == 0 {
          if k != r { assert m[k] == s[k]; }
        }
      }
    }
  }

  /* ----- what the kernel says when the loop ends ----- */

  lemma AugmentKernel(a: seq<Vec>, n: nat, u: Vec, x: Vec)
    requires IsMatrix(a, n, n) && |u| == n && |x| == n
    ensures InKernel(Augment(a, n), u + x) <==> x == MatVec(a, u)
  {
    hide Dot, Mul, Augment, Unit, MatVec, Plus;
    var m := Augment(a, n);
    forall i | 0 <= i < n ensures Dot(m[i], u + x) == 0 <==> Dot(a[i], u) == x[i] {
      DotConcat(a[i], Unit(n, i), u, x);
      DotUnit(x, i);
      XorCancels(Dot(a[i], u), x[i]);
    }
    if InKernel(m, u + x) {
      forall i | 0 <= i < n ensures x[i] == MatVec(a, u)[i] { assert Dot(m[i], u + x) == 0; }
    }
  }

  /** The right half of the augmented matrix. */
  function RightHalf(m: seq<Vec>, n: nat): (r: seq<Vec>)
    requires IsMatrix(m, n, 2 * n)
    ensures IsMatrix(r, n, n)
    ensures forall i :: 0 <= i < n ==> r[i] == m[i][n..]
  {
    seq(n, i requires 0 <= i < n => m[i][n..])
  }

  lemma ReducedKernel(m: seq<Vec>, n: nat, u: Vec, x: Vec)
    requires UnitColumns(m, n, n) && |u| == n && |x| == n
    ensures InKernel(m, u + x) <==> u == MatVec(RightHalf(m, n), x)
  {
    hide Dot, Mul, Unit, MatVec, RightHalf, Plus;
    var r := RightHalf(m, n);
    forall i | 0 <= i < n ensures Dot(m[i], u + x) == 0 <==> u[i] == Dot(r[i], x) {
      assert m[i] == Unit(n, i) + r[i];
      DotConcat(Unit(n, i), r[i], u, x);
      DotUnit(u, i);
      XorCancels(u[i], Dot(r[i], x));
    }
    if InKernel(m, u + x) {
      forall i | 0 <= i < n ensures u[i] == MatVec(r, x)[i] { assert Dot(m[i], u + x) == 0; }
    }
  }

  lemma MapEntry(a: seq<Vec>, b: seq<Vec>, n: nat, i: nat, j: nat)
    requires IsMatrix(a, n, n) && IsMatrix(b, n, n) && i < n && j < n
    requires MatVec(a, MatVec(b, Unit(n, j))) == Unit(n, j)
    ensures MatMul(a, b, n)[i][j] == if i == j then 1 else 0
  {
    hide Dot, Mul, Unit, MatVec, MatMul;
    var p, e := MatMul(a, b, n), Unit(n, j);
    MatVecAssociates(a, b, e);
    assert Dot(p[i], e) == MatVec(p, e)[i];
    DotCommutes(p[i], e);
    DotUnit(p[i], j);
  }

  /** A product whose maps compose to the identity is the identity matrix. */
  lemma MapIsIdentity(a: seq<Vec>, b: seq<Vec>, n: nat)
    requires IsMatrix(a, n, n) && IsMatrix(b, n, n)
    requires forall v: Vec :: |v| == n ==> MatVec(a, MatVec(b, v)) == v
    ensures MatMul(a, b, n) == Identity(n)
  {
    hide Dot, Mul, Unit, MatVec, MatMul, Identity;
    forall i, j | 0 <= i < n && 0 <= j < n ensures MatMul(a, b, n)[i][j] == Identity(n)[i][j] {
      assert MatVec(a, MatVec(b, Unit(n, j))) == Unit(n, j);
      MapEntry(a, b, n, i, j);
    }
    SameEntries(MatMul(a, b, n), Identity(n), n, n);
  }

  lemma ReducedGivesInverse(a: seq<Vec>, m: seq<Vec>, n: nat)
    requires IsMatrix(a, n, n) && UnitColumns(m, n, n)
    requires SameKernel(m, Augment(a, n), 2 * n)
    ensures IsInverse(a, RightHalf(m, n), n)
  {
    hide Dot, Mul, MatVec, MatMul, Identity, RightHalf, Augment, InKernel;
    var r := RightHalf(m, n);
    forall v: Vec | |v| == n ensures MatVec(a, MatVec(r, v)) == v {
      var u := MatVec(r, v);
      ReducedKernel(m, n, u, v);
      assert |u + v| == 2 * n;
      AugmentKernel(a, n, u, v);
    }
    forall v: Vec | |v| == n ensures MatVec(r, MatVec(a, v)) == v {
      var x := MatVec(a, v);
      AugmentKernel(a, n, v, x);
      assert |v + x| == 2 * n;
      ReducedKernel(m, n, v, x);
    }
    MapIsIdentity(a, r, n);
    MapIsIdentity(r, a, n);
  }

  /** The vector the search for a pivot in column col exposes when every candidate is zero. */
  ghost function KernelVector(m: seq<Vec>, n: nat, col: nat): (v: Vec)
    requires IsMatrix(m, n, 2 * n) && col < n
    ensures |v| == n && v[col] == 1
  {
    seq(n, j requires 0 <= j < n => if j < col then m[j][col] else if j == col then 1 else 0)
  }

  lemma KernelRow(m: seq<Vec>, n: nat, col: nat, i: nat)
    requires UnitColumns(m, n, col) && col < n && i < n
    requires forall k :: col <= k < n ==> m[k][col] == 0
    ensures Dot(m[i], KernelVector(m, n, col) + Zeros(n)) == 0
  {
    hide Dot, Mul, Unit, Zeros, Plus;
    var v := KernelVector(m, n, col) + Zeros(n);
    var row := m[i];
    assert row == row[..col] + ([row[col]] + row[col + 1..]);
    assert v == v[..col] + ([1] + v[col + 1..]);
    DotConcat(row[..col], [row[col]] + row[col + 1..], v[..col], [1] + v[col + 1..]);
    DotConcat([row[col]], row[col + 1..], [1], v[col + 1..]);
    DotSingle(row[col], 1);
    MulOne(row[col]);
    assert v[col + 1..] == Zeros(|v[col + 1..]|);
    DotZeros(row[col + 1..]);
    DotCommutes(row[col + 1..], v[col + 1..]);
    XorCancels(row[col], 0);
    if i < col {
      assert row[..col] == Unit(col, i);
      DotUnit(v[..col], i);
    } else {
      assert row[..col] == Zeros(col);
      DotZeros(v[..col]);
    }
  }

  lemma NoPivotMeansKernel(a: seq<Vec>, m: seq<Vec>, n: nat, col: nat) returns (v: Vec)
    requires IsMatrix(a, n, n) && UnitColumns(m, n, col) && col < n
    requires SameKernel(m, Augment(a, n), 2 * n)
    requires forall k :: col <= k < n ==> m[k][col] == 0
    ensures |v| == n && v != Zeros(n) && MatVec(a, v) == Zeros(n)
  {
    hide Dot, Mul, MatVec, Zeros, Augment, KernelVector;
    v := KernelVector(m, n, col);
    var w := v + Zeros(n);
    forall i | 0 <= i < n ensures Dot(m[i], w) == 0 { KernelRow(m, n, col, i); }
    assert InKernel(m, w) && |w| == 2 * n;
    AugmentKernel(a, n, v, Zeros(n));
    assert v[col] != Zeros(n)[col];
  }

  /* ----- a matrix without kernel has an inverse: the same elimination, on values ----- */

  /** The unique inverse, when there is one. */
  ghost function InverseOf(a: seq<Vec>, n: nat): Option<seq<Vec>> {
    if Invertible(a, n) then
      var b :| IsInverse(a, b, n);
      Some(b)
    else
      None
  }

  ghost predicate Reduced(a: seq<Vec>, m: seq<Vec>, n: nat, col: nat) {
    && IsMatrix(a, n, n) && UnitColumns(m, n, col)
    && SameKernel(m, Augment(a, n), 2 * n)
  }

  lemma PivotOnDiagonal(a: seq<Vec>, m: seq<Vec>, n: nat, col: nat, p: nat) returns (t: seq<Vec>)
    requires Reduced(a, m, n, col) && col <= p < n && m[p][col] != 0
    ensures Reduced(a, t, n, col) && t[col][col] == 1
  {
    hide Mul, Scale, Inv, InKernel, Augment, UnitColumns;
    assert IsMatrix(m, n, 2 * n) by { Shape(m, n, col); }
    SwapKeepsKernel(m, col, p, 2 * n);
    SwapKeepsColumns(m, n, col, p);
    var s := m[col := m[p]][p := m[col]];
    var x := s[col][col];
    MulOfInverse(x);
    MulCommutes(x, Inv(x));
    ScaleKeepsKernel(s, col, Inv(x), 2 * n);
    ScaleKeepsColumns(s, n, col, Inv(x));
    t := s[col := Scale(Inv(x), s[col])];
  }

  lemma Shape(m: seq<Vec>, n: nat, col: nat)
    requires UnitColumns(m, n, col)
    ensures IsMatrix(m, n, 2 * n)
  {}

  lemma ClearedColumn(a: seq<Vec>, m: seq<Vec>, n: nat, col: nat) returns (t: seq<Vec>)
    requires Reduced(a, m, n, col) && col < n && m[col][col] == 1
    ensures Reduced(a, t, n, col + 1)
  {
    hide Mul, Scale, Add, Plus, InKernel, Augment, UnitColumns;
    t := m;
    Shape(m, n, col);
    for row := 0 to n
      invariant Reduced(a, t, n, col) && IsMatrix(t, n, 2 * n) && t[col][col] == 1
      invariant forall i :: 0 <= i < row && i != col ==> t[i][col] == 0
    {
      if row != col {
        var f := t[row][col];
        AddRowKeepsKernel(t, row, col, f, 2 * n);
        AddKeepsColumns(t, n, col, row, f);
        MulOne(f);
        XorCancels(f, 0);
        t := t[row := Add(t[row], Scale(f, t[col]))];
      }
    }
    NextColumn(t, n, col);
  }

  /** Every matrix has an inverse or sends a nonzero vector to zero. */
  lemma KernelOrInverse(a: seq<Vec>, n: nat) returns (v: Vec)
    requires IsMatrix(a, n, n)
    ensures !Invertible(a, n) ==> |v| == n && v != Zeros(n) && MatVec(a, v) == Zeros(n)
  {
    hide Mul, Plus, InKernel, Augment, MatVec, Zeros, UnitColumns, Invertible;
    var m := Augment(a, n);
    NoColumns(m, n);
    for col := 0 to n
      invariant Reduced(a, m, n, col)
    {
      Shape(m, n, col);
      if p: nat :| col <= p < n && m[p][col] != 0 {
        m := PivotOnDiagonal(a, m, n, col, p);
        m := ClearedColumn(a, m, n, col);
      } else {
        v := NoPivotMeansKernel(a, m, n, col);
        return;
      }
    }
    v := Zeros(n);
    Shape(m, n, n);
    ReducedGivesInverse(a, m, n);
    InverseExists(a, RightHalf(m, n), n);
  }

  lemma InverseExists(a: seq<Vec>, b: seq<Vec>, n: nat)
    requires IsInverse(a, b, n)
    ensures Invertible(a, n)
  {}

  /* ----- the row operations on the array ----- */

  ghost function Rows(aug: array2<Elem>): (m: seq<Vec>)
    reads aug
    ensures IsMatrix(m, aug.Length0, aug.Length1)
    ensures forall i, j :: 0 <= i < aug.Length0 && 0 <= j < aug.Length1 ==> m[i][j] == aug[i, j]
  {
    seq(aug.Length0, i requires 0 <= i < aug.Length0 reads aug =>
      seq(aug.Length1, j requires 0 <= j < aug.Length1 reads aug => aug[i, j]))
  }

  method SwapRows(aug: array2<Elem>, p: nat, q: nat)
    requires p < aug.Length0 && q < aug.Length0 && p != q
    modifies aug
    ensures Rows(aug) == old(Rows(aug)[p := Rows(aug)[q]][q := Rows(aug)[p]])
  {
    for k := 0 to aug.Length1
      invariant forall i, j :: 0 <= i < aug.Length0 && 0 <= j < aug.Length1 ==>
        aug[i, j] == old(aug[if j < k && i == p then q else if j < k && i == q then p else i, j])
    {
      aug[p, k], aug[q, k] := aug[q, k], aug[p, k];
    }
    SameEntries(Rows(aug), old(Rows(aug)[p := Rows(aug)[q]][q := Rows(aug)[p]]), aug.Length0, aug.Length1);
  }

  method ScaleRow(aug: array2<Elem>, r: nat, f: Elem)
    requires r < aug.Length0
    modifies aug
    ensures Rows(aug) == old(Rows(aug)[r := Scale(f, Rows(aug)[r])])
  {
    hide Mul;
    for k := 0 to aug.Length1
      invariant forall i, j :: 0 <= i < aug.Length0 && 0 <= j < aug.Length1 ==>
        aug[i, j] == if i == r && j < k then Mul(f, old(aug[i, j])) else old(aug[i, j])
    {
      MulCommutes(aug[r, k], f);
      aug[r, k] := Mul(aug[r, k], f);
    }
    SameEntries(Rows(aug), old(Rows(aug)[r := Scale(f, Rows(aug)[r])]), aug.Length0, aug.Length1);
  }

  method AddScaledRow(aug: array2<Elem>, r: nat, p: nat, f: Elem)
    requires r < aug.Length0 && p < aug.Length0 && r != p
    modifies aug
    ensures Rows(aug) == old(Rows(aug)[r := Add(Rows(aug)[r], Scale(f, Rows(aug)[p]))])
  {
    hide Mul, Plus;
    for k := 0 to aug.Length1
      invariant forall i, j :: 0 <= i < aug.Length0 && 0 <= j < aug.Length1 ==>
        aug[i, j] == if i == r && j < k then Plus(old(aug[i, j]), Mul(f, old(aug[p, j]))) else old(aug[i, j])
    {
      aug[r, k] := Plus(aug[r, k], Mul(f, aug[p, k]));
    }
    SameEntries(Rows(aug), old(Rows(aug)[r := Add(Rows(aug)[r], Scale(f, Rows(aug)[p]))]),
                aug.Length0, aug.Length1);
  }

  /* ----- effect of the operations on the unit columns ----- */

  lemma SwapKeepsColumns(m: seq<Vec>, n: nat, col: nat, p: nat)
    requires UnitColumns(m, n, col) && col <= p < n
    ensures UnitColumns(m[col := m[p]][p := m[col]], n, col)
  {}

  lemma ScaleKeepsColumns(m: seq<Vec>, n: nat, col: nat, f: Elem)
    requires UnitColumns(m, n, col) && col < n
    ensures UnitColumns(m[col := Scale(f, m[col])], n, col)
  {
    hide Mul, Scale;
    MulZero(f);
  }

  lemma AddKeepsColumns(m: seq<Vec>, n: nat, col: nat, r: nat, f: Elem)
    requires UnitColumns(m, n, col) && col < n && r < n && r != col
    ensures UnitColumns(m[r := Add(m[r], Scale(f, m[col]))], n, col)
  {
    hide Mul, Scale, Add, Plus;
    MulZero(f);
    XorCancels(0, 0);
    XorCancels(1, 0);
  }

  /* ----- the loops ----- */

  method FindPivot(aug: array2<Elem>, n: nat, col: nat) returns (pivot: Option<nat>)
    requires aug.Length0 == n && aug.Length1 == 2 * n && col < n
    ensures pivot.Some? ==> col <= pivot.value < n && aug[pivot.value, col] != 0
    ensures pivot.None? ==> forall k :: col <= k < n ==> aug[k, col] == 0
  {
    for row := col to n
      invariant forall k :: col <= k < row ==> aug[k, col] == 0
    {
      if aug[row, col] != 0 { return Some(row); }
    }
    return None;
  }

  method Eliminate(aug: array2<Elem>, n: nat, col: nat, ghost a: seq<Vec>)
    requires aug.Length0 == n && aug.Length1 == 2 * n && col < n && IsMatrix(a, n, n)
    requires aug[col, col] == 1 && UnitColumns(Rows(aug), n, col)
    requires SameKernel(Rows(aug), Augment(a, n), 2 * n)
    modifies aug
    ensures UnitColumns(Rows(aug), n, col + 1)
    ensures SameKernel(Rows(aug), Augment(a, n), 2 * n)
  {
    hide Mul, Scale, Add, Plus, InKernel, Augment, Rows, UnitColumns;
    for row := 0 to n
      invariant UnitColumns(Rows(aug), n, col)
      invariant SameKernel(Rows(aug), Augment(a, n), 2 * n)
      invariant aug[col, col] == 1
      invariant forall i :: 0 <= i < row && i != col ==> aug[i, col] == 0
    {
      var factor := aug[row, col];
      if row != col && factor != 0 {
        ghost var m := Rows(aug);
        AddRowKeepsKernel(m, row, col, factor, 2 * n);
        AddKeepsColumns(m, n, col, row, factor);
        MulOne(factor);
        XorCancels(factor, 0);
        AddScaledRow(aug, row, col, factor);
        assert forall i :: 0 <= i < n && i != row ==> aug[i, col] == m[i][col] by {
          assert forall i :: 0 <= i < n ==> aug[i, col] == Rows(aug)[i][col];
        }
        assert aug[row, col] == Rows(aug)[row][col];
      }
    }
    NextColumn(Rows(aug), n, col);
  }

  lemma NextColumn(m: seq<Vec>, n: nat, col: nat)
    requires UnitColumns(m, n, col) && col < n && m[col][col] == 1
    requires forall i :: 0 <= i < n && i != col ==> m[i][col] == 0
    ensures UnitColumns(m, n, col + 1)
  {}

  method Initialise(a: seq<Vec>, n: nat) returns (aug: array2<Elem>)
    requires IsMatrix(a, n, n)
    ensures fresh(aug) && aug.Length0 == n && aug.Length1 == 2 * n
    ensures Rows(aug) == Augment(a, n)
  {
    hide Unit;
    aug := new Elem[n, 2 * n]((i, j) requires 0 <= i < n && 0 <= j < 2 * n =>
      if j < n then a[i][j] else if j - n == i then 1 else 0);
    assert forall i :: 0 <= i < n ==> Rows(aug)[i] == a[i] + Unit(n, i);
  }

  /** gfMatrixInvert: an inverse when there is one, and otherwise the singular-matrix error, with a
      nonzero vector that the matrix sends to zero as the reason. */
  method Invert(a: seq<Vec>, n: nat) returns (r: Option<seq<Vec>>, ghost kernel: Vec)
    requires IsMatrix(a, n, n)
    ensures r.Some? ==> IsInverse(a, r.value, n)
    ensures r.None? ==> |kernel| == n && kernel != Zeros(n) && MatVec(a, kernel) == Zeros(n)
    ensures r == InverseOf(a, n)
    ensures r.Some? <==> Invertible(a, n)
  {
    hide Mul, Scale, Add, Plus, InKernel, Augment, MatVec, MatMul, Zeros, Rows, UnitColumns, RightHalf;
    kernel := [];
    var aug := Initialise(a, n);
    NoColumns(Rows(aug), n);
    for col := 0 to n
      invariant UnitColumns(Rows(aug), n, col)
      invariant SameKernel(Rows(aug), Augment(a, n), 2 * n)
    {
      var pivot := FindPivot(aug, n, col);
      if pivot.None? {
        kernel := NoPivotMeansKernel(a, Rows(aug), n, col);
        if Invertible(a, n) { InvertibleHasNoKernel(a, n, kernel); }
        return None, kernel;
      }
      PlacePivot(aug, n, col, pivot.value, a);
      Eliminate(aug, n, col, a);
    }
    ReducedGivesInverse(a, Rows(aug), n);
    var right := ReadRight(aug, n);
    r := Some(right);
    InverseExists(a, right, n);
    InverseIsUnique(a, right, InverseOf(a, n).value, n);
  }

  lemma NoColumns(m: seq<Vec>, n: nat)
    requires IsMatrix(m, n, 2 * n)
    ensures UnitColumns(m, n, 0)
  {}

  /** Bring a nonzero pivot to the diagonal and scale it to one. */
  method PlacePivot(aug: array2<Elem>, n: nat, col: nat, pivot: nat, ghost a: seq<Vec>)
    requires aug.Length0 == n && aug.Length1 == 2 * n && col <= pivot < n && IsMatrix(a, n, n)
    requires UnitColumns(Rows(aug), n, col) && SameKernel(Rows(aug), Augment(a, n), 2 * n)
    requires aug[pivot, col] != 0
    modifies aug
    ensures aug[col, col] == 1
    ensures UnitColumns(Rows(aug), n, col) && SameKernel(Rows(aug), Augment(a, n), 2 * n)
  {
    hide Mul, Scale, Inv, InKernel, Augment, Rows, UnitColumns;
    if pivot != col {
      SwapKeepsKernel(Rows(aug), col, pivot, 2 * n);
      SwapKeepsColumns(Rows(aug), n, col, pivot);
      SwapRows(aug, col, pivot);
    }
    assert aug[col, col] == Rows(aug)[col][col];
    var pivotValue := aug[col, col];
    if pivotValue != 1 {
      MulOfInverse(pivotValue);
      MulCommutes(pivotValue, Inv(pivotValue));
      ScaleKeepsKernel(Rows(aug), col, Inv(pivotValue), 2 * n);
      ScaleKeepsColumns(Rows(aug), n, col, Inv(pivotValue));
      ScaleRow(aug, col, Inv(pivotValue));
      assert aug[col, col] == Rows(aug)[col][col];
    }
  }

  method ReadRight(aug: array2<Elem>, n: nat) returns (right: seq<Vec>)
    requires aug.Length0 == n && aug.Length1 == 2 * n
    ensures right == RightHalf(Rows(aug), n)
  {
    right := [];
    for i := 0 to n
      invariant IsMatrix(right, i, n)
      invariant forall k :: 0 <= k < i ==> right[k] == Rows(aug)[k][n..]
    {
      var row := seq(n, j requires 0 <= j < n reads aug => aug[i, j + n]);
      assert row == Rows(aug)[i][n..];
      right := right + [row];
    }
  }
}
