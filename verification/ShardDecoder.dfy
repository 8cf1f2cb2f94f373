/** The decoder of the erasure code: which shards it uses, what it returns, and that any k of the n
    shards of a message give the message back. */
module ShardDecoder {
  import opened GaloisField
  import opened LinearAlgebra
  import opened MatrixInversion
  import opened ErasureCode
  import opened Outcomes
  import opened ByteBuffers

  type Shards = seq<Option<Vec>>

  datatype DecodeError = NoDataShards | TooFewShards | InsufficientShards | EmptyShards | Singular

  /* ----- what the decoder computes ----- */

  /** Indices below n at which a shard is present, in order. */
  function Indices(shards: Shards, n: nat): (idx: seq<nat>)
    requires n <= |shards|
    ensures |idx| <= n
    ensures forall i :: 0 <= i < |idx| ==> idx[i] < n && shards[idx[i]].Some?
    ensures forall i, j :: 0 <= i < j < |idx| ==> idx[i] < idx[j]
  {
    if n == 0 then []
    else Indices(shards, n - 1) + if shards[n - 1].Some? then [n - 1] else []
  }

  function Available(shards: Shards): nat { |Indices(shards, |shards|)| }

  predicate DataPresent(shards: Shards, k: nat) {
    k <= |shards| && forall i :: 0 <= i < k ==> shards[i].Some?
  }

  /** A shard read at positions below size: missing bytes act as zero, further ones are not read. */
  function Fit(v: Vec, size: nat): (w: Vec)
    ensures |w| == size
    ensures |v| == size ==> w == v
  {
    seq(size, i requires 0 <= i < size => if i < |v| then v[i] else 0)
  }

  function Received(shards: Shards, idx: seq<nat>, size: nat): (m: seq<Vec>)
    requires forall i :: 0 <= i < |idx| ==> idx[i] < |shards| && shards[idx[i]].Some?
    ensures IsMatrix(m, |idx|, size)
    ensures forall i :: 0 <= i < |idx| ==> m[i] == Fit(shards[idx[i]].value, size)
  {
    seq(|idx|, i requires 0 <= i < |idx| => Fit(shards[idx[i]].value, size))
  }

  ghost function DecodeRows(shards: Shards, k: nat): (s: seq<Vec>)
    requires k <= Available(shards) && k <= MAX_SHARDS
    ensures IsMatrix(s, k, k)
  {
    Select(EncodeMatrix(|shards|, k), Indices(shards, |shards|)[..k])
  }

  /** The first k shards present determine the data: at most 256 are needed, and at most one of those used is
      shard 0 or one beyond the field. */
  ghost predicate Recoverable(shards: Shards, k: nat) {
    k <= Available(shards) && k <= MAX_SHARDS && DistinctPoints(Indices(shards, |shards|)[..k])
  }

  lemma RecoverableExactly(shards: Shards, k: nat)
    requires k <= Available(shards) && k <= MAX_SHARDS
    ensures Recoverable(shards, k) <==> Invertible(DecodeRows(shards, k), k)
  {
    hide Indices, Invertible, DistinctPoints, EncodeMatrix;
    RowsInvertibleExactly(|shards|, k, Indices(shards, |shards|)[..k]);
  }

  ghost function Reconstructed(shards: Shards, k: nat, size: nat): (data: seq<Vec>)
    requires Recoverable(shards, k)
    ensures IsMatrix(data, k, size)
  {
    RecoverableExactly(shards, k);
    var inv := InverseOf(DecodeRows(shards, k), k).value;
    MatMul(inv, Received(shards, Indices(shards, |shards|)[..k], size), size)
  }

  function DataShards(shards: Shards, k: nat): (parts: seq<Vec>)
    requires DataPresent(shards, k)
    ensures |parts| == k && forall i :: 0 <= i < k ==> parts[i] == shards[i].value
  {
    seq(k, i requires 0 <= i < k => shards[i].value)
  }

  function ShardSize(shards: Shards): nat
    requires Available(shards) > 0
  {
    |shards[Indices(shards, |shards|)[0]].value|
  }

  ghost function Decoded(shards: Shards, k: nat, len: nat): Result<Vec, DecodeError> {
    if k == 0 then Err(NoDataShards)
    else if |shards| < k then Err(TooFewShards)
    else if Available(shards) < k then Err(InsufficientShards)
    else if DataPresent(shards, k) then Ok(Cut(Flat(DataShards(shards, k)), len))
    else if ShardSize(shards) == 0 then Err(EmptyShards)
    else if !Recoverable(shards, k) then Err(Singular)
    else Ok(Sized(Flat(Reconstructed(shards, k, ShardSize(shards))), len))
  }

  /* ----- any k of n ----- */

  /** The shards present are shards of this data under the encode matrix. */
  ghost predicate Encodes(shards: Shards, data: seq<Vec>, k: nat, size: nat) {
    && 1 <= k <= |shards| && k <= MAX_SHARDS && IsMatrix(data, k, size)
    && forall r :: 0 <= r < |shards| && shards[r].Some? ==>
         shards[r].value == Combine(EncodeMatrix(|shards|, k)[r], data, size)
  }

  /** The first k shards of an encoding are the data itself. */
  lemma SystematicShards(shards: Shards, data: seq<Vec>, k: nat, size: nat)
    requires Encodes(shards, data, k, size) && DataPresent(shards, k)
    ensures DataShards(shards, k) == data
  {
    hide Combine, EncodeMatrix, Unit;
    forall r | 0 <= r < k ensures shards[r].value == data[r] {
      TopRowsAreIdentity(|shards|, k, r);
      CombineUnit(data, r, size);
    }
  }

  lemma ReceivedAreEncoded(shards: Shards, data: seq<Vec>, k: nat, size: nat)
    requires Encodes(shards, data, k, size) && k <= Available(shards)
    ensures ShardSize(shards) == size
    ensures Received(shards, Indices(shards, |shards|)[..k], size)
         == MatMul(DecodeRows(shards, k), data, size)
  {
    hide Combine, EncodeMatrix, MatMul, Fit, Received, Select, Indices;
    var idx := Indices(shards, |shards|)[..k];
    var rows := DecodeRows(shards, k);
    var received := Received(shards, idx, size);
    assert |shards[idx[0]].value| == size;
    forall i | 0 <= i < k ensures received[i] == Combine(rows[i], data, size) {
      assert shards[idx[i]].value == Combine(EncodeMatrix(|shards|, k)[idx[i]], data, size);
    }
  }

  lemma ReconstructedIsData(shards: Shards, data: seq<Vec>, k: nat, size: nat)
    requires Encodes(shards, data, k, size) && Recoverable(shards, k)
    ensures Reconstructed(shards, k, size) == data
  {
    hide Combine, EncodeMatrix, MatMul, Received, Indices, DecodeRows;
    var rows := DecodeRows(shards, k);
    RecoverableExactly(shards, k);
    var inv := InverseOf(rows, k).value;
    ReceivedAreEncoded(shards, data, k, size);
    var out := Reconstructed(shards, k, size);
    forall d | 0 <= d < k ensures out[d] == data[d] {
      ReconstructionUndoesEncoding(rows, inv, data, k, size, d);
    }
  }

  lemma SizedIsCut(v: Vec, len: nat)
    requires len <= |v|
    ensures Sized(v, len) == Cut(v, len) == v[..len]
  {
    assert Zeros(0) == [];
    assert v[..len] + [] == v[..len];
  }

  /** Whatever k or more shards survive, decoding gives the data cut, or in the solving path cut or zero-filled, to
      the stated length; it fails, as singular, exactly when a data shard is missing and two of the shards used
      are shard 0 or beyond the field. */
  lemma DecodingRecovers(shards: Shards, data: seq<Vec>, k: nat, size: nat, len: nat)
    requires Encodes(shards, data, k, size) && k <= Available(shards) && size > 0
    ensures Decoded(shards, k, len)
         == if DataPresent(shards, k) then Ok(Cut(Flat(data), len))
            else if Recoverable(shards, k) then Ok(Sized(Flat(data), len)) else Err(Singular)
  {
    hide Reconstructed, Cut, Sized, Flat, Indices, Recoverable;
    ReceivedAreEncoded(shards, data, k, size);
    if DataPresent(shards, k) {
      SystematicShards(shards, data, k, size);
    } else if Recoverable(shards, k) {
      ReconstructedIsData(shards, data, k, size);
    }
  }

  /** With up to 256 shards, the size of the field, that never happens. */
  lemma FieldIsEnough(shards: Shards, k: nat)
    requires k <= Available(shards) && |shards| <= MAX_SHARDS
    ensures Recoverable(shards, k)
  {
    hide DistinctPoints;
    var idx := Indices(shards, |shards|)[..k];
    assert forall i, j :: 0 <= i < j < |idx| ==> idx[i] < idx[j];
    SmallRowsDiffer(idx);
  }

  /** Any k of the n shards give back the first originalDataLen bytes of the message: always for n up to 256, and
      beyond exactly when the data shards are all there or the shards used are recoverable. */
  lemma AnyKOfN(shards: Shards, data: seq<Vec>, k: nat, size: nat, originalDataLen: nat)
    requires Encodes(shards, data, k, size) && k <= Available(shards) && size > 0
    requires originalDataLen <= k * size
    ensures |Flat(data)| == k * size
    ensures |shards| <= MAX_SHARDS ==> Recoverable(shards, k)
    ensures Decoded(shards, k, originalDataLen) == Ok(Flat(data)[..originalDataLen])
       <==> DataPresent(shards, k) || Recoverable(shards, k)
  {
    hide Flat, Decoded, Available, Sized, Cut, Recoverable;
    DecodingRecovers(shards, data, k, size, originalDataLen);
    if |shards| <= MAX_SHARDS { FieldIsEnough(shards, k); }
    FlatLength(data, size);
    SizedIsCut(Flat(data), originalDataLen);
  }

  /** The path that copies the data shards and the path that solves for them agree on two survivor
      sets of one message exactly when the stated length fits the shards. */
  lemma PathsAgreeExactly(copied: Shards, solved: Shards, data: seq<Vec>, k: nat, size: nat, len: nat)
    requires Encodes(copied, data, k, size) && DataPresent(copied, k) && k <= Available(copied)
    requires Encodes(solved, data, k, size) && !DataPresent(solved, k) && k <= Available(solved)
    requires size > 0 && Recoverable(solved, k)
    ensures Decoded(copied, k, len) == Decoded(solved, k, len) <==> len <= k * size
  {
    hide Flat, Decoded, Available, Recoverable;
    DecodingRecovers(copied, data, k, size, len);
    DecodingRecovers(solved, data, k, size, len);
    FlatLength(data, size);
    if len <= k * size {
      SizedIsCut(Flat(data), len);
    } else {
      assert |Cut(Flat(data), len)| < |Sized(Flat(data), len)|;
    }
  }

  /* ----- shards that show both limits ----- */

  /** The shards of data of which those in there survive. */
  ghost function Survivors(data: seq<Vec>, k: nat, size: nat, total: nat, there: set<nat>): (shards: Shards)
    requires 1 <= k <= total && k <= MAX_SHARDS && IsMatrix(data, k, size)
    ensures |shards| == total && Encodes(shards, data, k, size)
    ensures forall r :: 0 <= r < total ==> (shards[r].Some? <==> r in there)
  {
    seq(total, r requires 0 <= r < total =>
      if r in there then Some(Combine(EncodeMatrix(total, k)[r], data, size)) else None)
  }

  lemma {:induction false} NoneBefore(shards: Shards, n: nat)
    requires n <= |shards| && forall r :: 0 <= r < n ==> shards[r].None?
    ensures Indices(shards, n) == []
  {
    if n > 0 { NoneBefore(shards, n - 1); }
  }

  lemma OnlyBeyond(shards: Shards)
    requires |shards| == 258 && forall r :: 0 <= r < 258 ==> (shards[r].Some? <==> r >= 256)
    ensures Indices(shards, 258) == [256, 257]
  {
    NoneBefore(shards, 256);
    assert Indices(shards, 257) == [256];
  }

  /** Two of 258 shards survive, as many as are needed, and both lie beyond the field: whatever the data is, it is
      lost. */
  lemma BeyondRecovery(data: seq<Vec>, size: nat, len: nat)
    requires IsMatrix(data, 2, size) && size > 0
    ensures var shards := Survivors(data, 2, size, 258, {256, 257});
      Encodes(shards, data, 2, size) && Available(shards) == 2 && Decoded(shards, 2, len) == Err(Singular)
  {
    hide Survivors, Indices, Decoded;
    var shards := Survivors(data, 2, size, 258, {256, 257});
    OnlyBeyond(shards);
    assert shards[0].None? && !DataPresent(shards, 2);
    var used := Indices(shards, 258)[..2];
    assert used[0] == 256 && used[1] == 257 && SamePoint(used[0], used[1]);
    DecodingRecovers(shards, data, 2, size, len);
  }

  /** One shard and its parity, the stated length one too long: with the data shard there the message has size
      bytes, without it one zero byte more. */
  lemma PathsDiffer(data: seq<Vec>, size: nat)
    requires IsMatrix(data, 1, size) && size > 0
    ensures var (copied, solved) := (Survivors(data, 1, size, 2, {0, 1}), Survivors(data, 1, size, 2, {1}));
      && Available(copied) >= 1 && Available(solved) >= 1
      && Decoded(copied, 1, size + 1) == Ok(Flat(data)) && Decoded(solved, 1, size + 1) == Ok(Flat(data) + [0])
  {
    hide Survivors, Decoded, Flat, Recoverable;
    var (copied, solved) := (Survivors(data, 1, size, 2, {0, 1}), Survivors(data, 1, size, 2, {1}));
    assert Indices(copied, 1) == [0];
    assert Indices(solved, 1) == [];
    assert DataPresent(copied, 1) && !DataPresent(solved, 1) by { assert solved[0].None?; }
    FieldIsEnough(solved, 1);
    DecodingRecovers(copied, data, 1, size, size + 1);
    DecodingRecovers(solved, data, 1, size, size + 1);
    FlatLength(data, size);
    assert Flat(data)[..size] == Flat(data);
    assert Blank(1) == [0];
  }

  /** The second data shard of two is solved for from the first and the parity shard. */
  lemma LostShardIsSolved()
    ensures Decoded([Some([0]), None, Some([1])], 2, 2) == Ok([0, 142])
  {
    hide Plus, Mul, Combine, EncodeMatrix, Decoded, Recoverable, Indices, Flat, Unit;
    var shards: Shards := [Some([0]), None, Some([1])];
    var data: seq<Vec> := [[0], [142]];
    TopRowsAreIdentity(3, 2, 0);
    CombineUnit(data, 0, 1);
    ParityOfTwo();
    CombineTwo(3, 2, data[0], data[1]);
    MulZero(3);
    MulTwo(142);
    XorCancels(1, 0);
    assert Encodes(shards, data, 2, 1);
    FirstAndThird(shards);
    FlatTwo(data[0], data[1]);
    assert !DataPresent(shards, 2);
    AnyKOfN(shards, data, 2, 1, 2);
    assert Flat(data)[..2] == [0, 142];
  }

  lemma FirstAndThird(shards: Shards)
    requires |shards| == 3 && shards[0].Some? && shards[1].None? && shards[2].Some?
    ensures Indices(shards, 3) == [0, 2]
  {
    assert Indices(shards, 0) == [];
    assert Indices(shards, 1) == [0];
    assert Indices(shards, 2) == [0];
  }

  lemma FlatTwo(u: Vec, v: Vec)
    ensures Flat([u, v]) == u + v
  {
    assert [u, v][..1] == [u] && [u][..0] == [];
    assert Flat([u]) == Flat([]) + u == u;
  }

  /** Decoding fails exactly when no or too few shards are there, or one of the data is missing and the ones used are
      empty or cannot be solved. */
  lemma FailsExactly(shards: Shards, k: nat, len: nat)
    ensures Decoded(shards, k, len).Err? <==>
      (k == 0 || Available(shards) < k
       || (!DataPresent(shards, k) && (ShardSize(shards) == 0 || !Recoverable(shards, k))))
  {
    hide Indices, Recoverable, Reconstructed, Cut, Sized, Flat;
  }

  /* ----- the decoder as the client runs it ----- */

  method VandermondeRows(total: nat, k: nat) returns (v: seq<Vec>)
    ensures v == Vandermonde(total, k)
  {
    hide Power, Point;
    v := [];
    for r := 0 to total
      invariant |v| == r && forall i :: 0 <= i < r ==> v[i] == PowerRow(Point(i), k)
    {
      var row: Vec := [];
      for c := 0 to k
        invariant |row| == c && forall j :: 0 <= j < c ==> row[j] == Power(Point(r), j)
      {
        var p := PowBySquaring(Point(r), c);
        row := row + [p];
      }
      assert row == PowerRow(Point(r), k);
      v := v + [row];
    }
  }

  method ProductEntry(row: Vec, m: seq<Vec>, cols: nat, c: nat) returns (acc: Elem)
    requires IsMatrix(m, |row|, cols) && c < cols
    ensures acc == Combine(row, m, cols)[c]
  {
    hide Mul, Plus, Combine, Scale, Add, Zeros;
    acc := 0;
    CombineNothing(cols);
    assert row[..0] == [] && m[..0] == [];
    for k := 0 to |row|
      invariant acc == Combine(row[..k], m[..k], cols)[c]
    {
      CombineAppend(row[..k], row[k], m[..k], m[k], cols);
      assert row[..k] + [row[k]] == row[..k + 1] && m[..k] + [m[k]] == m[..k + 1];
      acc := Plus(acc, Mul(row[k], m[k][c]));
    }
    assert row[..|row|] == row && m[..|row|] == m;
  }

  lemma CombineNothing(cols: nat)
    ensures Combine([], [], cols) == Zeros(cols)
  {}

  /** buildEncodeMatrix: the top of the Vandermonde matrix is invertible, unless it is larger than the field. */
  method BuildEncodeMatrix(k: nat, parity: nat) returns (r: Option<seq<Vec>>)
    ensures r.Some? <==> k <= MAX_SHARDS
    ensures r.Some? ==> r.value == EncodeMatrix(k + parity, k)
  {
    hide Combine, Vandermonde, TopInverse, InverseOf, Invertible;
    var total := k + parity;
    var vand := VandermondeRows(total, k);
    var top := vand[..k];
    assert top == Vandermonde(k, k);
    if k > MAX_SHARDS { TopBeyondField(k); } else { TopIsInvertible(k); }
    var inverse, _ := Invert(top, k);
    if inverse.None? { return None; }
    var topInv := inverse.value;
    InverseIsUnique(top, topInv, TopInverse(k), k);
    var m: seq<Vec> := [];
    for n := 0 to total
      invariant IsMatrix(m, n, k)
      invariant forall i :: 0 <= i < n ==> m[i] == Combine(vand[i], topInv, k)
    {
      var row: Vec := [];
      for c := 0 to k
        invariant |row| == c && forall j :: 0 <= j < c ==> row[j] == Combine(vand[n], topInv, k)[j]
      {
        var acc := ProductEntry(vand[n], topInv, k, c);
        row := row + [acc];
      }
      assert row == Combine(vand[n], topInv, k);
      m := m + [row];
    }
    return Some(m);
  }

  /** Adds coeff times a shard into out: skipped for 0, a plain exclusive or for 1, else by logs. */
  method MulAddInto(out: array<Elem>, coeff: Elem, src: Vec)
    modifies out
    ensures out[..] == Add(old(out[..]), Scale(coeff, Fit(src, out.Length)))
  {
    hide Mul, Plus, Add, Scale, Fit;
    var size := out.Length;
    ghost var before, fit := out[..], Fit(src, size);
    if coeff == 0 {
      ScaleByZero(fit);
      AddZeros(before);
      return;
    }
    for k := 0 to size
      invariant forall j :: 0 <= j < size ==>
        out[j] == if j < k then Plus(before[j], Mul(coeff, fit[j])) else before[j]
    {
      FitAt(src, size, k);
      var b := if k < |src| then src[k] else 0;
      if coeff == 1 {
        MulOne(b);
        out[k] := Plus(out[k], b);
      } else if b != 0 {
        MulByLogs(coeff, b);
        out[k] := Plus(out[k], XPow((Log(coeff) + Log(b)) % PERIOD));
      } else {
        MulZero(coeff);
        XorCancels(out[k], 0);
      }
    }
  }

  lemma FitAt(v: Vec, size: nat, k: nat)
    requires k < size
    ensures Fit(v, size)[k] == if k < |v| then v[k] else 0
  {}

  lemma MulByLogs(a: Elem, b: Elem)
    requires a != 0 && b != 0
    ensures Mul(a, b) == XPow((Log(a) + Log(b)) % PERIOD)
  {}

  method FirstPresent(shards: Shards, k: nat) returns (idx: seq<nat>)
    requires 1 <= k <= Available(shards)
    ensures idx == Indices(shards, |shards|)[..k]
  {
    idx := [];
    for i := 0 to |shards|
      invariant idx == Indices(shards, i) && |idx| < k
    {
      if shards[i].Some? { idx := idx + [i]; }
      if |idx| == k {
        assert idx == Indices(shards, i + 1);
        IndicesExtend(shards, i + 1, |shards|);
        return;
      }
    }
  }

  lemma {:induction false} IndicesExtend(shards: Shards, m: nat, n: nat)
    requires m <= n <= |shards|
    ensures |Indices(shards, m)| <= |Indices(shards, n)|
    ensures Indices(shards, m) == Indices(shards, n)[..|Indices(shards, m)|]
  {
    if m < n { IndicesExtend(shards, m, n - 1); }
  }

  /** rsReconstruct: the inverse of the first k received rows, applied to those shards, or the singular-matrix
      error. */
  method Reconstruct(shards: Shards, k: nat, size: nat) returns (r: Option<seq<Vec>>)
    requires 1 <= k <= Available(shards)
    ensures r.Some? <==> Recoverable(shards, k)
    ensures r.Some? ==> r.value == Reconstructed(shards, k, size)
  {
    hide Combine, EncodeMatrix, InverseOf, Invertible, Indices, Fit, Add, Scale, DistinctPoints;
    var matrix := BuildEncodeMatrix(k, |shards| - k);
    if matrix.None? { return None; }
    var idx := FirstPresent(shards, k);
    var sub := Select(matrix.value, idx);
    assert sub == DecodeRows(shards, k);
    RecoverableExactly(shards, k);
    var inverse, _ := Invert(sub, k);
    if inverse.None? { return None; }
    var inv := inverse.value;
    var data: seq<Vec> := [];
    ghost var received := Received(shards, idx, size);
    for d := 0 to k
      invariant IsMatrix(data, d, size)
      invariant forall i :: 0 <= i < d ==> data[i] == Combine(inv[i], received, size)
    {
      var row := ReconstructRow(inv[d], shards, idx, size);
      data := data + [row];
    }
    return Some(data);
  }

  method ReconstructRow(coeffs: Vec, shards: Shards, idx: seq<nat>, size: nat) returns (row: Vec)
    requires |coeffs| == |idx|
    requires forall i :: 0 <= i < |idx| ==> idx[i] < |shards| && shards[idx[i]].Some?
    ensures row == Combine(coeffs, Received(shards, idx, size), size)
  {
    hide Combine, Fit, Add, Scale, Zeros, Received;
    ghost var received := Received(shards, idx, size);
    var out := new Elem[size](_ => 0);
    CombineNothing(size);
    assert out[..] == Zeros(size);
    assert coeffs[..0] == [] && received[..0] == [];
    for i := 0 to |idx|
      invariant out[..] == Combine(coeffs[..i], received[..i], size)
    {
      CombineAppend(coeffs[..i], coeffs[i], received[..i], received[i], size);
      assert coeffs[..i] + [coeffs[i]] == coeffs[..i + 1] && received[..i] + [received[i]] == received[..i + 1];
      MulAddInto(out, coeffs[i], shards[idx[i]].value);
    }
    assert coeffs[..|idx|] == coeffs && received[..|idx|] == received;
    row := out[..];
  }

  method CountPresent(shards: Shards) returns (n: nat)
    ensures n == Available(shards)
  {
    n := 0;
    for i := 0 to |shards|
      invariant n == |Indices(shards, i)|
    {
      if shards[i].Some? { n := n + 1; }
    }
  }

  method FirstSize(shards: Shards) returns (size: nat)
    requires Available(shards) > 0
    ensures size == ShardSize(shards)
  {
    size := 0;
    var i := 0;
    while i < |shards| && shards[i].None?
      invariant i <= |shards| && Indices(shards, i) == []
    {
      i := i + 1;
    }
    IndicesExtend(shards, i + 1, |shards|);
    size := |shards[i].value|;
  }

  /** decodeShards. */
  method DecodeShards(shards: Shards, dataShardCount: nat, originalDataLen: nat)
    returns (r: Result<Vec, DecodeError>)
    ensures r == Decoded(shards, dataShardCount, originalDataLen)
  {
    hide Flat, Reconstructed, Indices, Blank, Recoverable;
    var k := dataShardCount;
    if k == 0 { return Err(NoDataShards); }
    if |shards| < k { return Err(TooFewShards); }
    var available := CountPresent(shards);
    if available < k { return Err(InsufficientShards); }
    if forall i :: 0 <= i < k ==> shards[i].Some? {
      var parts := DataShards(shards, k);
      var total := TotalLength(parts);
      var out := CopyParts(parts, originalDataLen, Min(total, originalDataLen));
      assert Blank(0) == [];
      assert out == Cut(Flat(parts), originalDataLen);
      return Ok(out);
    }
    // With no parity, k shards available means all data present, so the solver always has parity.
    var size := FirstSize(shards);
    if size == 0 { return Err(EmptyShards); }
    var rows := Reconstruct(shards, k, size);
    if rows.None? { return Err(Singular); }
    var out := CopyParts(rows.value, originalDataLen, originalDataLen);
    r := Ok(out);
  }
}
