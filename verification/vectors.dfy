/** The single-column specialisation. A vector is a matrix with exactly one
    column; its single-index accessor reads and writes column 0, `Sum` and
    `Mean` reduce it, and its operators compute the matrix result and re-pack
    it with `MatToVec`. */
module Vectors {
  import opened Results
  import opened Matrices
  import MatrixLaws

  /** The shape every vector has: a valid matrix with one column. */
  predicate IsVector(v: Matrix) {
    v.Valid() && v.cols == 1
  }

  /** `new Vector(n)`: n rows, one column, all zero. */
  function New(n: nat): (v: Matrix)
    ensures IsVector(v) && v.Length() == n
    ensures forall i :: 0 <= i < n ==> v.data[i][0] == 0.0
  {
    Zeros(n, 1)
  }

  /** The entries top to bottom. */
  function Entries(v: Matrix): (s: seq<real>)
    requires IsVector(v)
    ensures |s| == v.Length()
    ensures forall i :: 0 <= i < |s| ==> s[i] == v.data[i][0]
  {
    seq(v.rows, i requires 0 <= i < v.rows => v.data[i][0])
  }

  /** The getter `this[i]`. */
  function At(v: Matrix, i: int): (r: Result<real, Error>)
    requires IsVector(v)
    ensures r.Ok? <==> 0 <= i < v.Length()
    ensures r.Ok? ==> r.value == v.data[i][0]
    ensures r.Err? ==> r.error == IndexOutOfRange
  {
    Get(v, i, 0)
  }

  /** The setter `this[i] = x`, returning the updated vector. */
  function Put(v: Matrix, i: int, x: real): (r: Result<Matrix, Error>)
    requires IsVector(v)
    ensures r.Ok? <==> 0 <= i < v.Length()
    ensures r.Err? ==> r.error == IndexOutOfRange
    ensures r.Ok? ==> IsVector(r.value) && r.value.Length() == v.Length()
  {
    Set(v, i, 0, x)
  }

  /** Reading back index i after writing x there gives x; every other index is unchanged. */
  lemma AtAfterPut(v: Matrix, i: int, x: real, k: int)
    requires IsVector(v) && 0 <= i < v.Length()
    ensures Put(v, i, x).Ok?
    ensures At(Put(v, i, x).value, k) == if k == i then Ok(x) else At(v, k)
  {
  }

  /** The left-to-right sum s[0] + s[1] + ... starting from 0. */
  function SumOf(s: seq<real>): real
  {
    if |s| == 0 then 0.0 else SumOf(s[..|s| - 1]) + s[|s| - 1]
  }

  /** `Sum()`: adds the entries in index order. */
  method Sum(v: Matrix) returns (sum: real)
    requires IsVector(v)
    ensures sum == SumOf(Entries(v))
  {
    ghost var e := Entries(v);
    sum := 0.0;
    var i := 0;
    while i < v.Length()
      invariant 0 <= i <= v.Length()
      invariant sum == SumOf(e[..i])
    {
      assert e[..i + 1][..i] == e[..i];
      sum := sum + v.data[i][0];
      i := i + 1;
    }
    assert e[..v.Length()] == e;
  }

  /** `Mean()`: Sum() / Length. For an empty vector that is 0/0, a NaN, modelled as None. */
  method Mean(v: Matrix) returns (r: Option<real>)
    requires IsVector(v)
    ensures r.None? <==> v.Length() == 0
    ensures r.Some? ==> r.value * (v.Length() as real) == SumOf(Entries(v))
  {
    var s := Sum(v);
    if v.Length() == 0 {
      r := None;
    } else {
      r := Some(s / (v.Length() as real));
    }
  }

  /** The operator `l + r` for a matrix r. */
  function PlusMatrix(l: Matrix, r: Matrix): (res: Result<Matrix, Error>)
    requires IsVector(l) && r.Valid()
    ensures res.Err? <==> !(r.rows == l.rows && r.cols == 1)
    ensures res.Err? ==> res.error == ShapeMismatch
    ensures res.Ok? ==> IsVector(res.value) && res.value.Length() == l.Length()
    ensures res.Ok? ==> forall i :: 0 <= i < l.rows ==> res.value.data[i][0] == l.data[i][0] + r.data[i][0]
  {
    var m :- Add(l, r);
    assert forall i :: 0 <= i < m.rows ==> RowMajor(m.cols, i, 0) == i;
    MatToVec(m)
  }

  /** The operator `l - r` for a matrix r. */
  function MinusMatrix(l: Matrix, r: Matrix): (res: Result<Matrix, Error>)
    requires IsVector(l) && r.Valid()
    ensures res.Err? <==> !(r.rows == l.rows && r.cols == 1)
    ensures res.Err? ==> res.error == ShapeMismatch
    ensures res.Ok? ==> IsVector(res.value) && res.value.Length() == l.Length()
    ensures res.Ok? ==> forall i :: 0 <= i < l.rows ==> res.value.data[i][0] == l.data[i][0] - r.data[i][0]
  {
    var m :- Subtract(l, r);
    assert forall i :: 0 <= i < m.rows ==> RowMajor(m.cols, i, 0) == i;
    MatToVec(m)
  }

  /** The operator `l * r` for a matrix r: the product is Length × r.Cols, which
      needs r to have one row, and re-packing it needs Length <= 1 or r.Cols <= 1. */
  function TimesMatrix(l: Matrix, r: Matrix): (res: Result<Matrix, Error>)
    requires IsVector(l) && r.Valid()
    ensures res.Err? <==> (r.rows != 1 || (l.rows > 1 && r.cols > 1))
    ensures r.rows != 1 ==> res == Err(InnerMismatch(1, r.rows))
    ensures r.rows == 1 && l.rows > 1 && r.cols > 1 ==> res == Err(NotAVector(l.rows, r.cols))
    ensures res.Ok? ==> IsVector(res.value) && res.value.rows == l.rows * r.cols
    ensures res.Ok? ==> forall i, j :: 0 <= i < l.rows && 0 <= j < r.cols ==>
                          RowMajor(r.cols, i, j) < res.value.rows &&
                          res.value.data[RowMajor(r.cols, i, j)][0] == l.data[i][0] * r.data[0][j]
  {
    var m :- Multiply(l, r);
    ProductOfColumnAndRow(l, r, m);
    MatToVec(m)
  }

  /** Each entry of a column times a row is a single product. */
  lemma ProductOfColumnAndRow(l: Matrix, r: Matrix, m: Matrix)
    requires IsVector(l) && r.Valid() && r.rows == 1 && Multiply(l, r) == Ok(m)
    ensures m.Valid() && m.rows == l.rows && m.cols == r.cols
    ensures forall i, j :: 0 <= i < l.rows && 0 <= j < r.cols ==> m.data[i][j] == l.data[i][0] * r.data[0][j]
  {
    forall i, j | 0 <= i < l.rows && 0 <= j < r.cols
      ensures m.data[i][j] == l.data[i][0] * r.data[0][j]
    {
      assert m.data[i][j] == Dot(l, r, i, j, 1);
      assert Dot(l, r, i, j, 0) == 0.0;
    }
  }

  /** The operator `v + x` for a scalar x. A column always re-packs, so it never fails. */
  function PlusScalar(v: Matrix, x: real): (w: Matrix)
    requires IsVector(v)
    ensures IsVector(w) && w.Length() == v.Length()
    ensures forall i :: 0 <= i < v.rows ==> w.data[i][0] == v.data[i][0] + x
  {
    var m := AddScalar(v, x);
    MatrixLaws.MatToVecOfColumn(m);
    MatToVec(m).value
  }

  /** The operator `v - x` for a scalar x. */
  function MinusScalar(v: Matrix, x: real): (w: Matrix)
    requires IsVector(v)
    ensures IsVector(w) && w.Length() == v.Length()
    ensures forall i :: 0 <= i < v.rows ==> w.data[i][0] == v.data[i][0] - x
  {
    var m := SubtractScalar(v, x);
    MatrixLaws.MatToVecOfColumn(m);
    MatToVec(m).value
  }

  /** The operator `v * x` for a scalar x. */
  function TimesScalar(v: Matrix, x: real): (w: Matrix)
    requires IsVector(v)
    ensures IsVector(w) && w.Length() == v.Length()
    ensures forall i :: 0 <= i < v.rows ==> w.data[i][0] == v.data[i][0] * x
  {
    var m := Scale(v, x);
    MatrixLaws.MatToVecOfColumn(m);
    MatToVec(m).value
  }

  lemma {:induction false} SumOfAdds(s: seq<real>, t: seq<real>, u: seq<real>)
    requires |s| == |t| == |u|
    requires forall i :: 0 <= i < |u| ==> u[i] == s[i] + t[i]
    ensures SumOf(u) == SumOf(s) + SumOf(t)
  {
    if |u| > 0 {
      var n := |u| - 1;
      SumOfAdds(s[..n], t[..n], u[..n]);
    }
  }

  lemma {:induction false} SumOfScales(s: seq<real>, u: seq<real>, c: real)
    requires |s| == |u|
    requires forall i :: 0 <= i < |u| ==> u[i] == s[i] * c
    ensures SumOf(u) == SumOf(s) * c
  {
    if |u| > 0 {
      var n := |u| - 1;
      SumOfScales(s[..n], u[..n], c);
    }
  }

  lemma {:induction false} SumOfConstant(s: seq<real>, c: real)
    requires forall i :: 0 <= i < |s| ==> s[i] == c
    ensures SumOf(s) == (|s| as real) * c
  {
    if |s| > 0 {
      SumOfConstant(s[..|s| - 1], c);
    }
  }

  /** The sum of `l + r` is the sum of l plus the sum of r. */
  lemma PlusMatrixSums(l: Matrix, r: Matrix)
    requires IsVector(l) && IsVector(r) && l.rows == r.rows
    ensures PlusMatrix(l, r).Ok?
    ensures SumOf(Entries(PlusMatrix(l, r).value)) == SumOf(Entries(l)) + SumOf(Entries(r))
  {
    SumOfAdds(Entries(l), Entries(r), Entries(PlusMatrix(l, r).value));
  }

  /** The sum of `v * x` is x times the sum of v. */
  lemma TimesScalarSums(v: Matrix, x: real)
    requires IsVector(v)
    ensures SumOf(Entries(TimesScalar(v, x))) == SumOf(Entries(v)) * x
  {
    ScaledColumnSums(v, TimesScalar(v, x), x);
  }

  lemma ScaledColumnSums(v: Matrix, w: Matrix, x: real)
    requires IsVector(v) && IsVector(w) && w.rows == v.rows
    requires forall i :: 0 <= i < v.rows ==> w.data[i][0] == v.data[i][0] * x
    ensures SumOf(Entries(w)) == SumOf(Entries(v)) * x
  {
    SumOfScales(Entries(v), Entries(w), x);
  }

  /** A vector filled with c sums to Length * c, so its mean is c. */
  lemma FilledSumsAndMean(v: Matrix, c: real)
    requires IsVector(v)
    ensures IsVector(SetAll(v, c))
    ensures SumOf(Entries(SetAll(v, c))) == (v.Length() as real) * c
    ensures v.Length() > 0 ==> SumOf(Entries(SetAll(v, c))) / (v.Length() as real) == c
  {
    var s := Entries(SetAll(v, c));
    assert |s| == v.Length();
    assert forall i :: 0 <= i < |s| ==> s[i] == c;
    SumOfConstant(s, c);
    var n := v.Length() as real;
    assert SumOf(s) == n * c;
    if v.Length() > 0 {
      DivideProduct(n, c);
    }
  }

  lemma DivideProduct(n: real, c: real)
    requires n != 0.0
    ensures n * c / n == c
  {
    assert n * c == c * n;
  }

  /** Subtracting the vector r undoes adding it. */
  lemma MinusMatrixUndoesPlusMatrix(l: Matrix, r: Matrix)
    requires IsVector(l) && IsVector(r) && l.rows == r.rows
    ensures PlusMatrix(l, r).Ok?
    ensures MinusMatrix(PlusMatrix(l, r).value, r) == Ok(l)
  {
    var s := PlusMatrix(l, r).value;
    Extensional(MinusMatrix(s, r).value, l);
  }

  /** Subtracting the scalar x undoes adding it. */
  lemma MinusScalarUndoesPlusScalar(v: Matrix, x: real)
    requires IsVector(v)
    ensures MinusScalar(PlusScalar(v, x), x) == v
  {
    Extensional(MinusScalar(PlusScalar(v, x), x), v);
  }

  /** Multiplying by the 1 × 1 matrix [[c]] agrees with multiplying by the scalar c. */
  lemma TimesUnitMatrixIsScaling(v: Matrix, c: real)
    requires IsVector(v)
    ensures TimesMatrix(v, Matrix(1, 1, [[c]])) == Ok(TimesScalar(v, c))
  {
    var r := Matrix(1, 1, [[c]]);
    var p := TimesMatrix(v, r).value;
    forall i, j | 0 <= i < v.rows && 0 <= j < 1
      ensures p.data[i][j] == TimesScalar(v, c).data[i][j]
    {
      assert RowMajor(1, i, 0) == i;
    }
    Extensional(p, TimesScalar(v, c));
  }

  /** Multiplying by a 1 × k row with k > 1 succeeds only for vectors of length at
      most one, and then yields the scaled row as a column. */
  lemma TimesWideRow(v: Matrix, r: Matrix)
    requires IsVector(v) && r.Valid() && r.rows == 1 && r.cols > 1
    ensures TimesMatrix(v, r).Ok? <==> v.Length() <= 1
    ensures v.Length() == 1 ==> TimesMatrix(v, r) == Ok(Transpose(Scale(r, v.data[0][0])))
  {
    if v.Length() == 1 {
      var p := TimesMatrix(v, r).value;
      var q := Transpose(Scale(r, v.data[0][0]));
      forall i, j | 0 <= i < r.cols && 0 <= j < 1
        ensures p.data[i][j] == q.data[i][j]
      {
        assert RowMajor(r.cols, 0, i) == i;
      }
      Extensional(p, q);
    }
  }
}
