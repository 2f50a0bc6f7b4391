/** Laws of the matrix operations: what each result means in terms of its
    operands, stated across calls. */
module MatrixLaws {
  import opened Results
  import opened Matrices

  /** Elementwise addition gives the same answer, or the same error, either way round. */
  lemma AddCommutes(a: Matrix, b: Matrix)
    requires a.Valid() && b.Valid()
    ensures Add(a, b) == Add(b, a)
  {
    if a.SameShape(b) {
      Extensional(Add(a, b).value, Add(b, a).value);
    }
  }

  /** So does the Hadamard product. */
  lemma HadamardCommutes(a: Matrix, b: Matrix)
    requires a.Valid() && b.Valid()
    ensures HadamardMultiply(a, b) == HadamardMultiply(b, a)
  {
    if a.SameShape(b) {
      Extensional(HadamardMultiply(a, b).value, HadamardMultiply(b, a).value);
    }
  }

  /** Subtracting b undoes adding b. */
  lemma SubtractUndoesAdd(a: Matrix, b: Matrix)
    requires a.Valid() && b.Valid() && a.SameShape(b)
    ensures Add(a, b).Ok? && Subtract(Add(a, b).value, b) == Ok(a)
  {
    var s := Add(a, b).value;
    Extensional(Subtract(s, b).value, a);
  }

  /** Subtracting a scalar undoes adding it. */
  lemma SubtractScalarUndoesAddScalar(a: Matrix, x: real)
    requires a.Valid()
    ensures SubtractScalar(AddScalar(a, x), x) == a
  {
    Extensional(SubtractScalar(AddScalar(a, x), x), a);
  }

  /** Scaling by zero gives the zero matrix of the same shape, as `Clear` does. */
  lemma ScaleByZeroClears(a: Matrix)
    requires a.Valid()
    ensures Scale(a, 0.0) == Zeros(a.rows, a.cols)
    ensures Clear(a) == Zeros(a.rows, a.cols)
  {
    Extensional(Scale(a, 0.0), Zeros(a.rows, a.cols));
    Extensional(Clear(a), Zeros(a.rows, a.cols));
  }

  /** `SetAll(a, 0)` and `Clear()` agree. */
  lemma SetAllZeroIsClear(a: Matrix)
    requires a.Valid()
    ensures SetAll(a, 0.0) == Clear(a)
  {
    Extensional(SetAll(a, 0.0), Clear(a));
  }

  /** `SetAll` forgets every earlier entry: the last fill wins. */
  lemma SetAllOverwrites(a: Matrix, x: real, y: real)
    requires a.Valid()
    ensures SetAll(SetAll(a, x), y) == SetAll(a, y)
  {
    Extensional(SetAll(SetAll(a, x), y), SetAll(a, y));
  }

  /** Mapping f and then g is mapping their composition. */
  lemma MapComposes(a: Matrix, f: real -> real, g: real -> real)
    requires a.Valid()
    ensures Map(Map(a, f), g) == Map(a, x => g(f(x)))
  {
    Extensional(Map(Map(a, f), g), Map(a, x => g(f(x))));
  }

  /** Mapping the identity changes nothing. */
  lemma MapIdentity(a: Matrix)
    requires a.Valid()
    ensures Map(a, x => x) == a
  {
    Extensional(Map(a, x => x), a);
  }

  /** Reading back an entry just written gives the value written; every other
      entry keeps its old value. */
  lemma GetAfterSet(m: Matrix, i: int, j: int, x: real, i': int, j': int)
    requires m.Valid() && 0 <= i < m.rows && 0 <= j < m.cols
    ensures Set(m, i, j, x).Ok?
    ensures Get(Set(m, i, j, x).value, i', j') ==
              (if (i', j') == (i, j) then Ok(x) else Get(m, i', j'))
  {
  }

  /** Transposing twice restores the matrix. */
  lemma TransposeInvolutive(a: Matrix)
    requires a.Valid()
    ensures Transpose(Transpose(a)) == a
  {
    Extensional(Transpose(Transpose(a)), a);
  }

  /** The n × n identity matrix. */
  function Identity(n: nat): (r: Matrix)
    ensures r.Valid() && r.rows == n && r.cols == n
    ensures forall i, j :: 0 <= i < n && 0 <= j < n ==> r.data[i][j] == if i == j then 1.0 else 0.0
  {
    Matrix(n, n, seq(n, i => seq(n, j => if i == j then 1.0 else 0.0)))
  }

  lemma {:induction false} DotIdentityLeft(a: Matrix, i: nat, j: nat, k: nat)
    requires a.Valid() && i < a.rows && j < a.cols && k <= a.rows
    ensures Dot(Identity(a.rows), a, i, j, k) == if i < k then a.data[i][j] else 0.0
  {
    if k > 0 {
      DotIdentityLeft(a, i, j, k - 1);
    }
  }

  lemma {:induction false} DotIdentityRight(a: Matrix, i: nat, j: nat, k: nat)
    requires a.Valid() && i < a.rows && j < a.cols && k <= a.cols
    ensures Dot(a, Identity(a.cols), i, j, k) == if j < k then a.data[i][j] else 0.0
  {
    if k > 0 {
      DotIdentityRight(a, i, j, k - 1);
    }
  }

  /** The identity is a left unit of `Multiply`. */
  lemma MultiplyIdentityLeft(a: Matrix)
    requires a.Valid()
    ensures Multiply(Identity(a.rows), a) == Ok(a)
  {
    var p := Multiply(Identity(a.rows), a).value;
    forall i, j | 0 <= i < a.rows && 0 <= j < a.cols
      ensures p.data[i][j] == a.data[i][j]
    {
      DotIdentityLeft(a, i, j, a.rows);
    }
    Extensional(p, a);
  }

  /** The identity is a right unit of `Multiply`. */
  lemma MultiplyIdentityRight(a: Matrix)
    requires a.Valid()
    ensures Multiply(a, Identity(a.cols)) == Ok(a)
  {
    var p := Multiply(a, Identity(a.cols)).value;
    forall i, j | 0 <= i < a.rows && 0 <= j < a.cols
      ensures p.data[i][j] == a.data[i][j]
    {
      DotIdentityRight(a, i, j, a.cols);
    }
    Extensional(p, a);
  }

  lemma {:induction false} DotTransposed(a: Matrix, b: Matrix, i: nat, j: nat, n: nat)
    requires a.Valid() && b.Valid() && i < a.rows && j < b.cols && n <= a.cols && n <= b.rows
    ensures Dot(Transpose(b), Transpose(a), j, i, n) == Dot(a, b, i, j, n)
  {
    if n > 0 {
      DotTransposed(a, b, i, j, n - 1);
    }
  }

  /** The transpose of a product is the product of the transposes in reverse order. */
  lemma TransposeOfProduct(a: Matrix, b: Matrix)
    requires a.Valid() && b.Valid() && a.cols == b.rows
    ensures Multiply(a, b).Ok?
    ensures Multiply(Transpose(b), Transpose(a)) == Ok(Transpose(Multiply(a, b).value))
  {
    var p := Multiply(Transpose(b), Transpose(a)).value;
    var q := Transpose(Multiply(a, b).value);
    forall i, j | 0 <= i < b.cols && 0 <= j < a.rows
      ensures p.data[i][j] == q.data[i][j]
    {
      DotTransposed(a, b, j, i, a.cols);
    }
    Extensional(p, q);
  }

  /** [[1,2],[3,4]] times its transpose [[1,3],[2,4]] is [[5,11],[11,25]]. */
  lemma MultiplyByTransposeExample()
    ensures var a := Matrix(2, 2, [[1.0, 2.0], [3.0, 4.0]]);
            Transpose(a) == Matrix(2, 2, [[1.0, 3.0], [2.0, 4.0]]) &&
            Multiply(a, Transpose(a)) == Ok(Matrix(2, 2, [[5.0, 11.0], [11.0, 25.0]]))
  {
    var a := Matrix(2, 2, [[1.0, 2.0], [3.0, 4.0]]);
    var t := Matrix(2, 2, [[1.0, 3.0], [2.0, 4.0]]);
    Extensional(Transpose(a), t);
    var p := Multiply(a, t).value;
    assert Dot(a, t, 0, 0, 1) == 1.0 && Dot(a, t, 0, 1, 1) == 3.0;
    assert Dot(a, t, 1, 0, 1) == 3.0 && Dot(a, t, 1, 1, 1) == 9.0;
    Extensional(p, Matrix(2, 2, [[5.0, 11.0], [11.0, 25.0]]));
  }

  /** Shape errors: a 2×3 plus a 3×2 fails, and so does a 2×3 times a 2×3 (3 ≠ 2). */
  lemma ShapeMismatchExamples(a: Matrix, b: Matrix)
    requires a.Valid() && b.Valid() && a.rows == 2 && a.cols == 3
    ensures b.rows == 3 && b.cols == 2 ==> Add(a, b) == Err(ShapeMismatch)
    ensures b.rows == 2 && b.cols == 3 ==> Multiply(a, b) == Err(InnerMismatch(3, 2))
  {
  }

  /** A 1 × k row is packed into the k × 1 column that is its transpose. */
  lemma MatToVecOfRow(a: Matrix)
    requires a.Valid() && a.rows == 1
    ensures MatToVec(a) == Ok(Transpose(a))
  {
    var v := MatToVec(a).value;
    forall i, j | 0 <= i < a.cols && 0 <= j < 1
      ensures v.data[i][j] == Transpose(a).data[i][j]
    {
      assert RowMajor(a.cols, 0, i) == i;
    }
    Extensional(v, Transpose(a));
  }

  /** A column is packed into itself. */
  lemma MatToVecOfColumn(a: Matrix)
    requires a.Valid() && a.cols == 1
    ensures MatToVec(a) == Ok(a)
  {
    var v := MatToVec(a).value;
    forall i, j | 0 <= i < a.rows && 0 <= j < 1
      ensures v.data[i][j] == a.data[i][j]
    {
      assert RowMajor(1, i, 0) == i;
    }
    Extensional(v, a);
  }

  /** `VecToMat` followed by `MatToVec` gives the vector back. */
  lemma VecToMatRoundTrip(v: Matrix)
    requires v.Valid() && v.cols == 1
    ensures MatToVec(VecToMat(v)) == Ok(v)
  {
    MatToVecOfColumn(v);
  }

  /** Examples: a row [a, b, c] packs to the column [a, b, c]; a 3 × 3 matrix fails. */
  lemma MatToVecExamples(x: real, y: real, z: real, m: Matrix)
    requires m.Valid() && m.rows == 3 && m.cols == 3
    ensures MatToVec(Matrix(1, 3, [[x, y, z]])) == Ok(Matrix(3, 1, [[x], [y], [z]]))
    ensures MatToVec(m) == Err(NotAVector(3, 3))
  {
    var row := Matrix(1, 3, [[x, y, z]]);
    MatToVecOfRow(row);
    Extensional(Transpose(row), Matrix(3, 1, [[x], [y], [z]]));
  }

  /** Tolerance equality is reflexive. */
  lemma ApproxEqualReflexive(a: Matrix)
    requires a.Valid()
    ensures ApproxEqual(a, a)
  {
  }

  /** Tolerance equality is symmetric. */
  lemma ApproxEqualSymmetric(a: Matrix, b: Matrix)
    requires a.Valid() && b.Valid()
    ensures ApproxEqual(a, b) <==> ApproxEqual(b, a)
  {
    if ApproxEqual(a, b) {
      forall i, j | 0 <= i < b.rows && 0 <= j < b.cols
        ensures Close(b.data[i][j], a.data[i][j])
      {
        assert Close(a.data[i][j], b.data[i][j]);
      }
    }
    if ApproxEqual(b, a) {
      forall i, j | 0 <= i < a.rows && 0 <= j < a.cols
        ensures Close(a.data[i][j], b.data[i][j])
      {
        assert Close(b.data[i][j], a.data[i][j]);
      }
    }
  }

  /** Tolerance equality is not transitive: [0] ≈ [1e-7] ≈ [2e-7], yet [0] is not ≈ [2e-7]. */
  lemma ApproxEqualNotTransitive()
    ensures var a := Matrix(1, 1, [[0.0]]);
            var b := Matrix(1, 1, [[0.0000001]]);
            var c := Matrix(1, 1, [[0.0000002]]);
            ApproxEqual(a, b) && ApproxEqual(b, c) && !ApproxEqual(a, c)
  {
    var a := Matrix(1, 1, [[0.0]]);
    var c := Matrix(1, 1, [[0.0000002]]);
    assert !Close(a.data[0][0], c.data[0][0]);
  }

  /** Entries 1e-8 apart compare equal; entries 1e-6 apart do not. */
  lemma ApproxEqualExamples(x: real)
    ensures ApproxEqual(Matrix(1, 1, [[x]]), Matrix(1, 1, [[x + 0.00000001]]))
    ensures !ApproxEqual(Matrix(1, 1, [[x]]), Matrix(1, 1, [[x + 0.000001]]))
  {
    assert !Close(Matrix(1, 1, [[x]]).data[0][0], Matrix(1, 1, [[x + 0.000001]]).data[0][0]);
  }

  /** `Clip` agrees with the clamp outside [lo, hi] and zeroes everything inside it. */
  lemma ClipIsMaskedClamp(m: Matrix, lo: real, hi: real, i: nat, j: nat)
    requires m.Valid() && i < m.rows && j < m.cols
    ensures lo <= m.data[i][j] <= hi ==> Clip(m, lo, hi).data[i][j] == 0.0
    ensures !(lo <= m.data[i][j] <= hi) ==> Clip(m, lo, hi).data[i][j] == Clamp(m, lo, hi).data[i][j]
  {
  }

  /** `Clip([[-1, 5, 10]], 0, 8)` is [[0, 0, 8]]: -1 rises to 0, 10 falls to 8, and the
      in-range 5 is lost; the clamp keeps it, giving [[0, 5, 8]]. */
  lemma ClipExample()
    ensures Clip(Matrix(1, 3, [[-1.0, 5.0, 10.0]]), 0.0, 8.0) == Matrix(1, 3, [[0.0, 0.0, 8.0]])
    ensures Clamp(Matrix(1, 3, [[-1.0, 5.0, 10.0]]), 0.0, 8.0) == Matrix(1, 3, [[0.0, 5.0, 8.0]])
  {
    var m := Matrix(1, 3, [[-1.0, 5.0, 10.0]]);
    Extensional(Clip(m, 0.0, 8.0), Matrix(1, 3, [[0.0, 0.0, 8.0]]));
    Extensional(Clamp(m, 0.0, 8.0), Matrix(1, 3, [[0.0, 5.0, 8.0]]));
  }

  /** With lo <= hi the clamp leaves every entry inside [lo, hi], keeps entries already
      there, and clamping twice is clamping once. */
  lemma ClampBoundsAndIdempotent(m: Matrix, lo: real, hi: real)
    requires m.Valid() && lo <= hi
    ensures forall i, j :: 0 <= i < m.rows && 0 <= j < m.cols ==>
              lo <= Clamp(m, lo, hi).data[i][j] <= hi
    ensures forall i, j :: 0 <= i < m.rows && 0 <= j < m.cols && lo <= m.data[i][j] <= hi ==>
              Clamp(m, lo, hi).data[i][j] == m.data[i][j]
    ensures Clamp(Clamp(m, lo, hi), lo, hi) == Clamp(m, lo, hi)
  {
    Extensional(Clamp(Clamp(m, lo, hi), lo, hi), Clamp(m, lo, hi));
  }
}
