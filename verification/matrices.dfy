/** A dense rows × cols matrix of reals with shape-checked operations.

    Every operation that the library performs by allocating a fresh result and
    filling it in a nested loop is a pure function here; operations that mutate
    a matrix in place (the indexer's setter, `Clear`) return the updated value.
    A thrown `ArgumentException` or index error is an `Err` result. */
module Matrices {
  import opened Results

  /** Largest absolute difference two entries may have and still compare equal. */
  const Tolerance: real := 0.0000001

  /** The exceptions the library throws, with the numbers its messages report. */
  datatype Error =
    | ShapeMismatch                          // elementwise operands differ in shape
    | InnerMismatch(aCols: nat, bRows: nat)  // Multiply: a.Cols != b.Rows
    | NotAVector(rows: nat, cols: nat)       // MatToVec: more than one row and column
    | IndexOutOfRange                        // an access outside the grid or the array

  datatype Matrix = Matrix(rows: nat, cols: nat, data: seq<seq<real>>) {

    /** The grid holds exactly `rows` rows of exactly `cols` entries each. */
    predicate Valid() {
      |data| == rows && forall i :: 0 <= i < rows ==> |data[i]| == cols
    }

    /** Number of entries. */
    function Length(): nat {
      rows * cols
    }

    predicate SameShape(other: Matrix) {
      rows == other.rows && cols == other.cols
    }
  }

  /** The constructor `Matrix(rows, cols)`: a zero-initialised grid. */
  function Zeros(rows: nat, cols: nat): (r: Matrix)
    ensures r.Valid() && r.rows == rows && r.cols == cols
    ensures forall i, j :: 0 <= i < rows && 0 <= j < cols ==> r.data[i][j] == 0.0
  {
    Matrix(rows, cols, seq(rows, _ => seq(cols, _ => 0.0)))
  }

  /** Two valid matrices of one shape that agree on every entry are the same value. */
  lemma Extensional(a: Matrix, b: Matrix)
    requires a.Valid() && b.Valid() && a.SameShape(b)
    requires forall i, j :: 0 <= i < a.rows && 0 <= j < a.cols ==> a.data[i][j] == b.data[i][j]
    ensures a == b
  {
    forall i | 0 <= i < a.rows
      ensures a.data[i] == b.data[i]
    {
      assert |a.data[i]| == |b.data[i]|;
      assert forall j :: 0 <= j < a.cols ==> a.data[i][j] == b.data[i][j];
    }
    assert a.data == b.data;
  }

  /** The indexer's getter `this[i, j]`. */
  function Get(m: Matrix, i: int, j: int): (r: Result<real, Error>)
    requires m.Valid()
    ensures r.Ok? <==> 0 <= i < m.rows && 0 <= j < m.cols
    ensures r.Ok? ==> r.value == m.data[i][j]
    ensures r.Err? ==> r.error == IndexOutOfRange
  {
    if 0 <= i < m.rows && 0 <= j < m.cols then Ok(m.data[i][j]) else Err(IndexOutOfRange)
  }

  /** The indexer's setter `this[i, j] = x`, returning the updated matrix. */
  function Set(m: Matrix, i: int, j: int, x: real): (r: Result<Matrix, Error>)
    requires m.Valid()
    ensures r.Ok? <==> 0 <= i < m.rows && 0 <= j < m.cols
    ensures r.Err? ==> r.error == IndexOutOfRange
    ensures r.Ok? ==> r.value.Valid() && r.value.SameShape(m)
    ensures r.Ok? ==> r.value.data[i][j] == x
    ensures r.Ok? ==> forall i', j' :: 0 <= i' < m.rows && 0 <= j' < m.cols && (i', j') != (i, j) ==>
                        r.value.data[i'][j'] == m.data[i'][j']
  {
    if 0 <= i < m.rows && 0 <= j < m.cols then
      Ok(m.(data := m.data[i := m.data[i][j := x]]))
    else
      Err(IndexOutOfRange)
  }

  /** The loop shared by every one-operand operation: a fresh matrix of a's shape
      whose entry (i, j) is f applied to a's entry (i, j). */
  function Pointwise(a: Matrix, f: real -> real): (r: Matrix)
    requires a.Valid()
    ensures r.Valid() && r.SameShape(a)
    ensures forall i, j :: 0 <= i < a.rows && 0 <= j < a.cols ==> r.data[i][j] == f(a.data[i][j])
  {
    Matrix(a.rows, a.cols,
           seq(a.rows, i requires 0 <= i < a.rows =>
             seq(a.cols, j requires 0 <= j < a.cols => f(a.data[i][j]))))
  }

  /** The loop shared by the two-operand elementwise operations, once shapes agree. */
  function Zip(a: Matrix, b: Matrix, op: (real, real) -> real): (r: Matrix)
    requires a.Valid() && b.Valid() && a.SameShape(b)
    ensures r.Valid() && r.SameShape(a)
    ensures forall i, j :: 0 <= i < a.rows && 0 <= j < a.cols ==>
              r.data[i][j] == op(a.data[i][j], b.data[i][j])
  {
    Matrix(a.rows, a.cols,
           seq(a.rows, i requires 0 <= i < a.rows =>
             seq(a.cols, j requires 0 <= j < a.cols => op(a.data[i][j], b.data[i][j]))))
  }

  /** `HadamardMultiply(a, b)`: entrywise product. */
  function HadamardMultiply(a: Matrix, b: Matrix): (r: Result<Matrix, Error>)
    requires a.Valid() && b.Valid()
    ensures r.Err? <==> !a.SameShape(b)
    ensures r.Err? ==> r.error == ShapeMismatch
    ensures r.Ok? ==> r.value.Valid() && r.value.SameShape(a)
    ensures r.Ok? ==> forall i, j :: 0 <= i < a.rows && 0 <= j < a.cols ==>
                        r.value.data[i][j] == a.data[i][j] * b.data[i][j]
  {
    if !a.SameShape(b) then Err(ShapeMismatch) else Ok(Zip(a, b, (x, y) => x * y))
  }

  /** `Add(a, b)`: entrywise sum. */
  function Add(a: Matrix, b: Matrix): (r: Result<Matrix, Error>)
    requires a.Valid() && b.Valid()
    ensures r.Err? <==> !a.SameShape(b)
    ensures r.Err? ==> r.error == ShapeMismatch
    ensures r.Ok? ==> r.value.Valid() && r.value.SameShape(a)
    ensures r.Ok? ==> forall i, j :: 0 <= i < a.rows && 0 <= j < a.cols ==>
                        r.value.data[i][j] == a.data[i][j] + b.data[i][j]
  {
    if !a.SameShape(b) then Err(ShapeMismatch) else Ok(Zip(a, b, (x, y) => x + y))
  }

  /** `Subtract(a, b)`: entrywise difference. */
  function Subtract(a: Matrix, b: Matrix): (r: Result<Matrix, Error>)
    requires a.Valid() && b.Valid()
    ensures r.Err? <==> !a.SameShape(b)
    ensures r.Err? ==> r.error == ShapeMismatch
    ensures r.Ok? ==> r.value.Valid() && r.value.SameShape(a)
    ensures r.Ok? ==> forall i, j :: 0 <= i < a.rows && 0 <= j < a.cols ==>
                        r.value.data[i][j] == a.data[i][j] - b.data[i][j]
  {
    if !a.SameShape(b) then Err(ShapeMismatch) else Ok(Zip(a, b, (x, y) => x - y))
  }

  /** `Map(a, f)`: f applied to every entry. */
  function Map(a: Matrix, f: real -> real): (r: Matrix)
    requires a.Valid()
    ensures r.Valid() && r.SameShape(a)
    ensures forall i, j :: 0 <= i < a.rows && 0 <= j < a.cols ==> r.data[i][j] == f(a.data[i][j])
  {
    Pointwise(a, f)
  }

  /** `SetAll(a, num)`: a matrix of a's shape filled with num. The `int` and
      `float` overloads convert num to a double and call this one. */
  function SetAll(a: Matrix, num: real): (r: Matrix)
    requires a.Valid()
    ensures r.Valid() && r.SameShape(a)
    ensures forall i, j :: 0 <= i < a.rows && 0 <= j < a.cols ==> r.data[i][j] == num
  {
    Pointwise(a, _ => num)
  }

  /** `Add(a, b)` with a scalar b: b added to every entry. */
  function AddScalar(a: Matrix, b: real): (r: Matrix)
    requires a.Valid()
    ensures r.Valid() && r.SameShape(a)
    ensures forall i, j :: 0 <= i < a.rows && 0 <= j < a.cols ==> r.data[i][j] == a.data[i][j] + b
  {
    Pointwise(a, x => x + b)
  }

  /** `Subtract(a, b)` with a scalar b: b subtracted from every entry. */
  function SubtractScalar(a: Matrix, b: real): (r: Matrix)
    requires a.Valid()
    ensures r.Valid() && r.SameShape(a)
    ensures forall i, j :: 0 <= i < a.rows && 0 <= j < a.cols ==> r.data[i][j] == a.data[i][j] - b
  {
    Pointwise(a, x => x - b)
  }

  /** `Scale(a, s)`: every entry multiplied by s. */
  function Scale(a: Matrix, s: real): (r: Matrix)
    requires a.Valid()
    ensures r.Valid() && r.SameShape(a)
    ensures forall i, j :: 0 <= i < a.rows && 0 <= j < a.cols ==> r.data[i][j] == a.data[i][j] * s
  {
    Pointwise(a, x => x * s)
  }

  /** `Copy()`: scaling by one yields a matrix equal to the original. */
  function Copy(a: Matrix): (r: Matrix)
    requires a.Valid()
    ensures r == a
  {
    var c := Scale(a, 1.0);
    Extensional(c, a);
    c
  }

  /** `Clear()`: every entry set to zero, shape unchanged. */
  function Clear(a: Matrix): (r: Matrix)
    requires a.Valid()
    ensures r.Valid() && r.SameShape(a)
    ensures forall i, j :: 0 <= i < a.rows && 0 <= j < a.cols ==> r.data[i][j] == 0.0
  {
    Pointwise(a, _ => 0.0)
  }

  /** The inner loop of `Multiply`: a[i,0]*b[0,j] + ... + a[i,n-1]*b[n-1,j],
      accumulated from 0 left to right. */
  function Dot(a: Matrix, b: Matrix, i: nat, j: nat, n: nat): real
    requires a.Valid() && b.Valid() && i < a.rows && j < b.cols && n <= a.cols && n <= b.rows
  {
    if n == 0 then 0.0 else Dot(a, b, i, j, n - 1) + a.data[i][n - 1] * b.data[n - 1][j]
  }

  /** `Multiply(a, b)`: the matrix product. */
  function Multiply(a: Matrix, b: Matrix): (r: Result<Matrix, Error>)
    requires a.Valid() && b.Valid()
    ensures r.Err? <==> a.cols != b.rows
    ensures r.Err? ==> r.error == InnerMismatch(a.cols, b.rows)
    ensures r.Ok? ==> r.value.Valid() && r.value.rows == a.rows && r.value.cols == b.cols
    ensures r.Ok? ==> forall i, j :: 0 <= i < a.rows && 0 <= j < b.cols ==>
                        r.value.data[i][j] == Dot(a, b, i, j, a.cols)
  {
    if a.cols != b.rows then
      Err(InnerMismatch(a.cols, b.rows))
    else
      Ok(Matrix(a.rows, b.cols,
                seq(a.rows, i requires 0 <= i < a.rows =>
                  seq(b.cols, j requires 0 <= j < b.cols => Dot(a, b, i, j, a.cols)))))
  }

  /** `Transpose(a)`: rows and columns swapped. */
  function Transpose(a: Matrix): (r: Matrix)
    requires a.Valid()
    ensures r.Valid() && r.rows == a.cols && r.cols == a.rows
    ensures forall i, j :: 0 <= i < a.cols && 0 <= j < a.rows ==> r.data[i][j] == a.data[j][i]
  {
    Matrix(a.cols, a.rows,
           seq(a.cols, i requires 0 <= i < a.cols =>
             seq(a.rows, j requires 0 <= j < a.rows => a.data[j][i])))
  }

  /** The position of entry (i, j) when rows of width `cols` are laid end to end. */
  function RowMajor(cols: nat, i: nat, j: nat): nat
  {
    i * cols + j
  }

  /** The rows laid end to end. */
  function Concat(rows: seq<seq<real>>): seq<real>
  {
    if |rows| == 0 then [] else rows[0] + Concat(rows[1..])
  }

  lemma {:induction false} ConcatLength(rows: seq<seq<real>>, c: nat)
    requires forall k :: 0 <= k < |rows| ==> |rows[k]| == c
    ensures |Concat(rows)| == |rows| * c
  {
    if |rows| > 0 {
      ConcatLength(rows[1..], c);
      assert |rows| * c == c + (|rows| - 1) * c;
    }
  }

  lemma {:induction false} ConcatIndex(rows: seq<seq<real>>, c: nat, i: nat, j: nat)
    requires forall k :: 0 <= k < |rows| ==> |rows[k]| == c
    requires i < |rows| && j < c
    ensures RowMajor(c, i, j) < |Concat(rows)| && Concat(rows)[RowMajor(c, i, j)] == rows[i][j]
  {
    if i == 0 {
      assert Concat(rows) == rows[0] + Concat(rows[1..]);
    } else {
      ConcatIndex(rows[1..], c, i - 1, j);
      assert RowMajor(c, i, j) == c + RowMajor(c, i - 1, j);
      assert Concat(rows) == rows[0] + Concat(rows[1..]);
    }
  }

  lemma ConcatIndexAll(rows: seq<seq<real>>, c: nat)
    requires forall k :: 0 <= k < |rows| ==> |rows[k]| == c
    ensures forall i, j :: 0 <= i < |rows| && 0 <= j < c ==>
              RowMajor(c, i, j) < |Concat(rows)| && Concat(rows)[RowMajor(c, i, j)] == rows[i][j]
  {
    forall i, j | 0 <= i < |rows| && 0 <= j < c
      ensures RowMajor(c, i, j) < |Concat(rows)| && Concat(rows)[RowMajor(c, i, j)] == rows[i][j]
    {
      ConcatIndex(rows, c, i, j);
    }
  }

  /** The entries in row-major order: entry (i, j) lands at position i*cols + j. */
  function Flatten(a: Matrix): (r: seq<real>)
    requires a.Valid()
    ensures |r| == a.Length()
    ensures forall i, j :: 0 <= i < a.rows && 0 <= j < a.cols ==>
              RowMajor(a.cols, i, j) < |r| && r[RowMajor(a.cols, i, j)] == a.data[i][j]
  {
    ConcatLength(a.data, a.cols);
    ConcatIndexAll(a.data, a.cols);
    Concat(a.data)
  }

  /** `FromArray(s)`: an |s| × 1 column holding s top to bottom. */
  function FromArray(s: seq<real>): (r: Matrix)
    ensures r.Valid() && r.rows == |s| && r.cols == 1
    ensures forall i :: 0 <= i < |s| ==> r.data[i][0] == s[i]
  {
    Matrix(|s|, 1, seq(|s|, i requires 0 <= i < |s| => [s[i]]))
  }

  /** `MatToVec(a)`: a row or column (or anything with a zero or unit extent)
      packed row-major into a single column; anything wider fails. */
  function MatToVec(a: Matrix): (r: Result<Matrix, Error>)
    requires a.Valid()
    ensures r.Err? <==> a.rows > 1 && a.cols > 1
    ensures r.Err? ==> r.error == NotAVector(a.rows, a.cols)
    ensures r.Ok? ==> r.value.Valid() && r.value.cols == 1 && r.value.rows == a.Length()
    ensures r.Ok? ==> forall i, j :: 0 <= i < a.rows && 0 <= j < a.cols ==>
                        RowMajor(a.cols, i, j) < r.value.rows &&
                        r.value.data[RowMajor(a.cols, i, j)][0] == a.data[i][j]
  {
    if a.rows > 1 && a.cols > 1 then Err(NotAVector(a.rows, a.cols)) else Ok(FromArray(Flatten(a)))
  }

  /** `VecToMat(v)`: a column viewed as a plain matrix, with nothing copied or changed. */
  function VecToMat(v: Matrix): (r: Matrix)
    requires v.Valid() && v.cols == 1
    ensures r.Valid() && r.cols == 1
    ensures r == v
  {
    v
  }

  /** `Clip(m, lo, hi)` as the library writes it: entries below lo become lo,
      entries above hi become hi, and every other entry is left at the zero the
      fresh result was initialised with. */
  function Clip(m: Matrix, lo: real, hi: real): (r: Matrix)
    requires m.Valid()
    ensures r.Valid() && r.SameShape(m)
    ensures forall i, j :: 0 <= i < m.rows && 0 <= j < m.cols ==>
              r.data[i][j] == (if m.data[i][j] < lo then lo else if m.data[i][j] > hi then hi else 0.0)
  {
    Pointwise(m, x => if x < lo then lo else if x > hi then hi else 0.0)
  }

  /** The clamp `Clip` may have been meant as: in-range entries are copied through. */
  function Clamp(m: Matrix, lo: real, hi: real): (r: Matrix)
    requires m.Valid()
    ensures r.Valid() && r.SameShape(m)
    ensures forall i, j :: 0 <= i < m.rows && 0 <= j < m.cols ==>
              r.data[i][j] == (if m.data[i][j] < lo then lo else if m.data[i][j] > hi then hi else m.data[i][j])
  {
    Pointwise(m, x => if x < lo then lo else if x > hi then hi else x)
  }

  /** One pass of `ToArray`'s inner loop over row i from column j on: entry
      (i, j) is written to position i*stride + j of acc, and a position outside
      acc throws. */
  function WriteRow(a: Matrix, stride: int, i: nat, j: nat, acc: seq<real>): (r: Result<seq<real>, Error>)
    requires a.Valid() && i < a.rows && j <= a.cols
    ensures r.Ok? ==> |r.value| == |acc|
    ensures r.Err? ==> r.error == IndexOutOfRange
    decreases a.cols - j
  {
    if j == a.cols then
      Ok(acc)
    else
      var p := i * stride + j;
      if 0 <= p < |acc| then WriteRow(a, stride, i, j + 1, acc[p := a.data[i][j]]) else Err(IndexOutOfRange)
  }

  /** `ToArray`'s outer loop from row i on. */
  function WriteRows(a: Matrix, stride: int, i: nat, acc: seq<real>): (r: Result<seq<real>, Error>)
    requires a.Valid() && i <= a.rows
    ensures r.Ok? ==> |r.value| == |acc|
    ensures r.Err? ==> r.error == IndexOutOfRange
    decreases a.rows - i
  {
    if i == a.rows then
      Ok(acc)
    else
      var acc' :- WriteRow(a, stride, i, 0, acc);
      WriteRows(a, stride, i + 1, acc')
  }

  /** `ToArray(a)` as the library writes it: a zeroed array of a.Length()
      slots, entry (i, j) written at i*(Rows-1) + j. */
  function ToArray(a: Matrix): (r: Result<seq<real>, Error>)
    requires a.Valid()
    ensures r.Ok? ==> |r.value| == a.Length()
    ensures r.Err? ==> r.error == IndexOutOfRange
  {
    WriteRows(a, a.rows - 1, 0, seq(a.Length(), _ => 0.0))
  }

  /** The row-major `ToArray` the round trip with `FromArray` calls for: the same loops with stride Cols. */
  function ToArrayRowMajor(a: Matrix): (r: Result<seq<real>, Error>)
    requires a.Valid()
    ensures r.Ok? ==> |r.value| == a.Length()
  {
    WriteRows(a, a.cols, 0, seq(a.Length(), _ => 0.0))
  }

  function Abs(x: real): real {
    if x < 0.0 then -x else x
  }

  /** Two entries compare equal when they differ by at most the tolerance. */
  predicate Close(x: real, y: real) {
    Abs(x - y) <= Tolerance
  }

  /** Same shape and every pair of corresponding entries close. */
  predicate ApproxEqual(a: Matrix, b: Matrix)
    requires a.Valid() && b.Valid()
  {
    a.SameShape(b) &&
    forall i, j :: 0 <= i < a.rows && 0 <= j < a.cols ==> Close(a.data[i][j], b.data[i][j])
  }

  /** `Equals(r)`: false on a shape difference, otherwise scans the grid row by
      row and answers false at the first entry pair that differs by more than
      the tolerance. */
  method Equals(a: Matrix, b: Matrix) returns (eq: bool)
    requires a.Valid() && b.Valid()
    ensures eq <==> ApproxEqual(a, b)
    ensures !a.SameShape(b) ==> !eq
  {
    if a.rows != b.rows || a.cols != b.cols {
      return false;
    }
    var i := 0;
    while i < a.rows
      invariant 0 <= i <= a.rows
      invariant forall i', j :: 0 <= i' < i && 0 <= j < a.cols ==> Close(a.data[i'][j], b.data[i'][j])
    {
      var j := 0;
      while j < a.cols
        invariant 0 <= j <= a.cols
        invariant forall j' :: 0 <= j' < j ==> Close(a.data[i][j'], b.data[i][j'])
      {
        if Abs(a.data[i][j] - b.data[i][j]) > Tolerance {
          return false;
        }
        j := j + 1;
      }
      i := i + 1;
    }
    return true;
  }
}
