/** What `ToArray`'s index arithmetic does. The library writes entry (i, j) to
    position i*(Rows-1) + j of a Rows*Cols array. That position stays inside the
    array exactly when Cols == 0 or Cols >= Rows - 1. The result is the row-major
    flattening when Rows <= 1 or Cols == Rows - 1 (and, trivially, when Cols == 0).
    With two or more rows and Cols >= Rows the conversion succeeds but puts a
    different entry at position Rows - 1 than row-major order does. The same loop
    with stride Cols always succeeds and yields the row-major flattening. */
module ArrayConversion {
  import opened Results
  import opened Matrices

  lemma MulMonotone(i: nat, m: nat, s: nat)
    requires i <= m
    ensures i * s <= m * s
  {
  }

  /** For m, c >= 0: m*m <= m*c holds exactly when m == 0 or m <= c. */
  lemma SquareAtMostProduct(m: nat, c: nat)
    ensures m * m <= m * c <==> (m == 0 || m <= c)
  {
    if m > 0 && m > c {
      assert m * m - m * c == m * (m - c);
      MulMonotone(1, m, m - c);
    }
    if m <= c {
      MulMonotone(m, c, m);
    }
  }

  /** Row i's inner loop succeeds exactly when its last write, at
      i*stride + Cols - 1, is inside acc. */
  lemma {:induction false} WriteRowSucceeds(a: Matrix, stride: nat, i: nat, j: nat, acc: seq<real>)
    requires a.Valid() && i < a.rows && j <= a.cols
    ensures WriteRow(a, stride, i, j, acc).Ok? <==> (j == a.cols || i * stride + a.cols - 1 < |acc|)
    decreases a.cols - j
  {
    if j < a.cols {
      var p := i * stride + j;
      assert 0 <= i * stride;
      if p < |acc| {
        WriteRowSucceeds(a, stride, i, j + 1, acc[p := a.data[i][j]]);
      }
    }
  }

  /** The outer loop from row i on succeeds exactly when the last write of the
      last row, at (Rows-1)*stride + Cols - 1, is inside acc. */
  lemma {:induction false} WriteRowsSucceeds(a: Matrix, stride: nat, i: nat, acc: seq<real>)
    requires a.Valid() && i <= a.rows
    ensures WriteRows(a, stride, i, acc).Ok? <==>
              (i == a.rows || a.cols == 0 || (a.rows - 1) * stride + a.cols - 1 < |acc|)
    decreases a.rows - i
  {
    if i < a.rows {
      WriteRowSucceeds(a, stride, i, 0, acc);
      MulMonotone(i, a.rows - 1, stride);
      var w := WriteRow(a, stride, i, 0, acc);
      if w.Ok? {
        WriteRowsSucceeds(a, stride, i + 1, w.value);
      }
    }
  }

  /** `ToArray` succeeds exactly when the matrix is empty or has at least
      Rows - 1 columns; otherwise it throws an index error. */
  lemma ToArraySucceedsIff(a: Matrix)
    requires a.Valid()
    ensures ToArray(a).Ok? <==> (a.cols == 0 || a.cols + 1 >= a.rows)
    ensures ToArray(a).Err? ==> ToArray(a).error == IndexOutOfRange
  {
    if a.rows > 0 {
      var m := a.rows - 1;
      WriteRowsSucceeds(a, m, 0, seq(a.Length(), _ => 0.0));
      SquareAtMostProduct(m, a.cols);
      assert a.Length() == m * a.cols + a.cols;
    }
  }

  /** Row i's inner loop from column j on writes entry (i, k) at i*stride + k for
      every k >= j and leaves every slot outside that stretch alone. */
  lemma {:induction false} WriteRowEffect(a: Matrix, stride: nat, i: nat, j: nat, acc: seq<real>)
    requires a.Valid() && i < a.rows && j <= a.cols
    requires WriteRow(a, stride, i, j, acc).Ok?
    ensures forall p :: 0 <= p < |acc| && !(RowMajor(stride, i, j) <= p < RowMajor(stride, i, a.cols)) ==>
              WriteRow(a, stride, i, j, acc).value[p] == acc[p]
    ensures forall k :: j <= k < a.cols ==>
              RowMajor(stride, i, k) < |acc| &&
              WriteRow(a, stride, i, j, acc).value[RowMajor(stride, i, k)] == a.data[i][k]
    decreases a.cols - j
  {
    if j < a.cols {
      var p := RowMajor(stride, i, j);
      var acc' := acc[p := a.data[i][j]];
      assert WriteRow(a, stride, i, j, acc) == WriteRow(a, stride, i, j + 1, acc');
      WriteRowEffect(a, stride, i, j + 1, acc');
      assert RowMajor(stride, i, j + 1) == p + 1;
    }
  }

  /** The outer loop from row i on writes entry (k, j) of every row k >= i at
      k*stride + j, and that write survives when no later row reaches it: k is
      the last row, or j < stride. Slots before row i's first write and after the
      last row's last write are left alone. */
  lemma {:induction false} WriteRowsEffect(a: Matrix, stride: nat, i: nat, acc: seq<real>)
    requires a.Valid() && 0 < a.rows && i <= a.rows
    requires WriteRows(a, stride, i, acc).Ok?
    ensures forall p :: 0 <= p < |acc| && (p < RowMajor(stride, i, 0) || p >= RowMajor(stride, a.rows - 1, a.cols)) ==>
              WriteRows(a, stride, i, acc).value[p] == acc[p]
    ensures forall k, j :: i <= k < a.rows && 0 <= j < a.cols && (k == a.rows - 1 || j < stride) ==>
              RowMajor(stride, k, j) < |acc| &&
              WriteRows(a, stride, i, acc).value[RowMajor(stride, k, j)] == a.data[k][j]
    decreases a.rows - i
  {
    if i < a.rows {
      var acc' := WriteRow(a, stride, i, 0, acc).value;
      assert WriteRows(a, stride, i, acc) == WriteRows(a, stride, i + 1, acc');
      WriteRowEffect(a, stride, i, 0, acc);
      WriteRowsEffect(a, stride, i + 1, acc');
      var r := WriteRows(a, stride, i, acc).value;
      MulMonotone(i, a.rows - 1, stride);
      assert RowMajor(stride, i, a.cols) <= RowMajor(stride, a.rows - 1, a.cols);
      assert RowMajor(stride, i + 1, 0) == RowMajor(stride, i, 0) + stride by { MulSucc(i, stride); }
      forall j | 0 <= j < a.cols && (i == a.rows - 1 || j < stride)
        ensures RowMajor(stride, i, j) < |acc| && r[RowMajor(stride, i, j)] == a.data[i][j]
      {
        if i == a.rows - 1 {
          assert r == acc';
        } else {
          assert RowMajor(stride, i, j) < RowMajor(stride, i + 1, 0);
        }
      }
    }
  }

  /** What `ToArray` returns when it succeeds: entry (i, j) sits at i*(Rows-1) + j
      whenever no later row overwrites it (i is the last row, or j < Rows - 1),
      and every slot past the last row's last write keeps its initial zero. */
  lemma ToArrayPlaces(a: Matrix)
    requires a.Valid() && ToArray(a).Ok?
    ensures forall i, j :: 0 <= i < a.rows && 0 <= j < a.cols && (i == a.rows - 1 || j < a.rows - 1) ==>
              RowMajor(a.rows - 1, i, j) < |ToArray(a).value| &&
              ToArray(a).value[RowMajor(a.rows - 1, i, j)] == a.data[i][j]
    ensures forall p :: 0 <= p < |ToArray(a).value| && p >= (a.rows - 1) * (a.rows - 1) + a.cols ==>
              ToArray(a).value[p] == 0.0
  {
    if a.rows > 0 {
      var z := seq(a.Length(), _ => 0.0);
      WriteRowsEffect(a, a.rows - 1, 0, z);
      assert RowMajor(a.rows - 1, a.rows - 1, a.cols) == (a.rows - 1) * (a.rows - 1) + a.cols;
    }
  }

  /** When row i's stride offset equals its row-major offset, its inner loop
      from column j on copies the rest of the row into place. */
  lemma {:induction false} WriteRowPlaces(a: Matrix, stride: int, i: nat, j: nat, acc: seq<real>)
    requires a.Valid() && i < a.rows && j <= a.cols
    requires i * stride == i * a.cols
    requires i * a.cols + a.cols <= |acc|
    ensures WriteRow(a, stride, i, j, acc) ==
              Ok(acc[..i * a.cols + j] + a.data[i][j..] + acc[i * a.cols + a.cols..])
    decreases a.cols - j
  {
    var base := i * a.cols;
    assert |a.data[i]| == a.cols;
    if j == a.cols {
      assert a.data[i][j..] == [];
      assert acc[..base + j] + a.data[i][j..] + acc[base + a.cols..] == acc;
    } else {
      var p := base + j;
      assert i * stride + j == p;
      var acc' := acc[p := a.data[i][j]];
      assert WriteRow(a, stride, i, j, acc) == WriteRow(a, stride, i, j + 1, acc');
      WriteRowPlaces(a, stride, i, j + 1, acc');
      SpliceStep(acc, a.data[i], base, j);
    }
  }

  /** Writing row[j] at base + j moves the boundary of a partly copied row by one. */
  lemma SpliceStep(acc: seq<real>, row: seq<real>, base: nat, j: nat)
    requires j < |row| && base + |row| <= |acc|
    ensures acc[base + j := row[j]][..base + j + 1] + row[j + 1..] + acc[base + j := row[j]][base + |row|..]
            == acc[..base + j] + row[j..] + acc[base + |row|..]
  {
    var acc' := acc[base + j := row[j]];
    assert acc'[..base + j + 1] == acc[..base + j] + [row[j]];
    assert acc'[base + |row|..] == acc[base + |row|..];
    assert row[j..] == [row[j]] + row[j + 1..];
  }

  /** When every row's stride offset equals its row-major offset, the outer loop
      from row i on lays rows i.. end to end after the first i*Cols positions. */
  lemma {:induction false} WriteRowsPlaces(a: Matrix, stride: int, i: nat, acc: seq<real>)
    requires a.Valid() && i <= a.rows && |acc| == a.Length()
    requires a.rows <= 1 || stride == a.cols
    ensures i * a.cols <= |acc|
    ensures WriteRows(a, stride, i, acc) == Ok(acc[..i * a.cols] + Concat(a.data[i..]))
    decreases a.rows - i
  {
    MulMonotone(i, a.rows, a.cols);
    if i == a.rows {
      assert a.data[i..] == [];
      assert acc[..i * a.cols] == acc;
      assert acc[..i * a.cols] + Concat(a.data[i..]) == acc;
    } else {
      var base := i * a.cols;
      var next := (i + 1) * a.cols;
      assert next == base + a.cols by { MulSucc(i, a.cols); }
      MulMonotone(i + 1, a.rows, a.cols);
      assert i * stride == base by {
        if a.rows <= 1 { assert i == 0; }
      }
      WriteRowPlaces(a, stride, i, 0, acc);
      assert a.data[i][0..] == a.data[i];
      var acc' := acc[..base] + a.data[i] + acc[next..];
      assert WriteRow(a, stride, i, 0, acc) == Ok(acc');
      assert WriteRows(a, stride, i, acc) == WriteRows(a, stride, i + 1, acc');
      WriteRowsPlaces(a, stride, i + 1, acc');
      assert acc'[..next] == acc[..base] + a.data[i];
      ConcatUnfold(a.data, i);
      assert acc'[..next] + Concat(a.data[i + 1..]) == acc[..base] + Concat(a.data[i..]);
    }
  }

  lemma MulSucc(i: nat, c: nat)
    ensures (i + 1) * c == i * c + c
  {
  }

  lemma ConcatUnfold(rows: seq<seq<real>>, i: nat)
    requires i < |rows|
    ensures Concat(rows[i..]) == rows[i] + Concat(rows[i + 1..])
  {
    assert rows[i..][1..] == rows[i + 1..];
  }

  /** As written, `ToArray` returns the row-major flattening when the matrix has
      at most one row or exactly Rows - 1 columns. */
  lemma ToArrayRowMajorWhen(a: Matrix)
    requires a.Valid() && (a.rows <= 1 || a.cols + 1 == a.rows)
    ensures ToArray(a) == Ok(Flatten(a))
  {
    var z := seq(a.Length(), _ => 0.0);
    WriteRowsPlaces(a, a.rows - 1, 0, z);
    assert a.data[0..] == a.data;
    assert z[..0] + Concat(a.data) == Concat(a.data);
  }

  /** The converse of `ToArrayRowMajorWhen` for the shapes that convert: with two
      or more rows and Cols >= Rows, position Rows - 1 receives entry (1, 0),
      while in row-major order it holds entry (0, Rows - 1). */
  lemma ToArrayNotRowMajor(a: Matrix)
    requires a.Valid() && a.rows >= 2 && a.cols >= a.rows
    ensures ToArray(a).Ok?
    ensures a.rows - 1 < |ToArray(a).value| && ToArray(a).value[a.rows - 1] == a.data[1][0]
    ensures a.rows - 1 < |Flatten(a)| && Flatten(a)[a.rows - 1] == a.data[0][a.rows - 1]
  {
    ToArraySucceedsIff(a);
    ToArrayPlaces(a);
    assert RowMajor(a.rows - 1, 1, 0) == a.rows - 1;
    assert RowMajor(a.cols, 0, a.rows - 1) == a.rows - 1;
  }

  /** The corrected loop, with stride Cols, always returns the row-major flattening. */
  lemma ToArrayRowMajorFlattens(a: Matrix)
    requires a.Valid()
    ensures ToArrayRowMajor(a) == Ok(Flatten(a))
  {
    var z := seq(a.Length(), _ => 0.0);
    WriteRowsPlaces(a, a.cols, 0, z);
    assert a.data[0..] == a.data;
    assert z[..0] + Concat(a.data) == Concat(a.data);
  }

  /** A column read back row-major is the sequence it was built from. */
  lemma FlattenFromArray(s: seq<real>)
    ensures Flatten(FromArray(s)) == s
  {
    var f := Flatten(FromArray(s));
    forall i | 0 <= i < |s|
      ensures f[i] == s[i]
    {
      assert RowMajor(1, i, 0) == i;
    }
  }

  /** As written, `ToArray(FromArray(s))` gives s back only for |s| <= 2; a
      longer column makes the third write land outside the array. */
  lemma ToArrayFromArray(s: seq<real>)
    ensures ToArray(FromArray(s)) == if |s| <= 2 then Ok(s) else Err(IndexOutOfRange)
  {
    var a := FromArray(s);
    ToArraySucceedsIff(a);
    if |s| <= 2 {
      ToArrayRowMajorWhen(a);
      FlattenFromArray(s);
    }
  }

  /** The corrected conversion round-trips every sequence. */
  lemma ToArrayRowMajorFromArray(s: seq<real>)
    ensures ToArrayRowMajor(FromArray(s)) == Ok(s)
  {
    ToArrayRowMajorFlattens(FromArray(s));
    FlattenFromArray(s);
  }

  /** [[1,2],[3,4]]: entry (1,0) lands at position 1 over entry (0,1), entry (1,1)
      at position 2, and position 3 keeps its zero, so `ToArray` yields
      [1, 3, 4, 0] rather than the row-major [1, 2, 3, 4]. */
  lemma ToArrayTwoByTwo()
    ensures ToArray(Matrix(2, 2, [[1.0, 2.0], [3.0, 4.0]])) == Ok([1.0, 3.0, 4.0, 0.0])
  {
    var a := Matrix(2, 2, [[1.0, 2.0], [3.0, 4.0]]);
    var z := seq(4, _ => 0.0);
    assert z == [0.0, 0.0, 0.0, 0.0];
    assert z[0 := 1.0] == [1.0, 0.0, 0.0, 0.0];
    assert [1.0, 0.0, 0.0, 0.0][1 := 2.0] == [1.0, 2.0, 0.0, 0.0];
    assert [1.0, 2.0, 0.0, 0.0][1 := 3.0] == [1.0, 3.0, 0.0, 0.0];
    assert [1.0, 3.0, 0.0, 0.0][2 := 4.0] == [1.0, 3.0, 4.0, 0.0];
    assert WriteRow(a, 1, 0, 2, [1.0, 2.0, 0.0, 0.0]) == Ok([1.0, 2.0, 0.0, 0.0]);
    assert WriteRow(a, 1, 0, 1, [1.0, 0.0, 0.0, 0.0]) == Ok([1.0, 2.0, 0.0, 0.0]);
    assert WriteRow(a, 1, 0, 0, z) == Ok([1.0, 2.0, 0.0, 0.0]);
    assert WriteRow(a, 1, 1, 2, [1.0, 3.0, 4.0, 0.0]) == Ok([1.0, 3.0, 4.0, 0.0]);
    assert WriteRow(a, 1, 1, 1, [1.0, 3.0, 0.0, 0.0]) == Ok([1.0, 3.0, 4.0, 0.0]);
    assert WriteRow(a, 1, 1, 0, [1.0, 2.0, 0.0, 0.0]) == Ok([1.0, 3.0, 4.0, 0.0]);
    assert WriteRows(a, 1, 2, [1.0, 3.0, 4.0, 0.0]) == Ok([1.0, 3.0, 4.0, 0.0]);
    assert WriteRows(a, 1, 1, [1.0, 2.0, 0.0, 0.0]) == Ok([1.0, 3.0, 4.0, 0.0]);
  }

  /** The corrected conversion reads [[1,2],[3,4]] as [1, 2, 3, 4]. */
  lemma ToArrayRowMajorTwoByTwo()
    ensures ToArrayRowMajor(Matrix(2, 2, [[1.0, 2.0], [3.0, 4.0]])) == Ok([1.0, 2.0, 3.0, 4.0])
  {
    var a := Matrix(2, 2, [[1.0, 2.0], [3.0, 4.0]]);
    ToArrayRowMajorFlattens(a);
    var last: seq<seq<real>> := [[3.0, 4.0]];
    assert last[1..] == [];
    assert Concat(last) == [3.0, 4.0];
    assert a.data[1..] == last;
    assert Concat(a.data) == [1.0, 2.0] + [3.0, 4.0];
    assert Flatten(a) == [1.0, 2.0, 3.0, 4.0];
  }

  /** [[1,2,3],[4,5,6]]: row 1 starts at position 1 and overwrites entries 2 and 3
      of row 0, and the last two slots keep their zeros. */
  lemma ToArrayTwoByThree()
    ensures ToArray(Matrix(2, 3, [[1.0, 2.0, 3.0], [4.0, 5.0, 6.0]])) == Ok([1.0, 4.0, 5.0, 6.0, 0.0, 0.0])
  {
    var a := Matrix(2, 3, [[1.0, 2.0, 3.0], [4.0, 5.0, 6.0]]);
    ToArraySucceedsIff(a);
    ToArrayPlaces(a);
    var r := ToArray(a).value;
    assert |r| == 6;
    assert r[RowMajor(1, 0, 0)] == a.data[0][0];
    assert r[RowMajor(1, 1, 0)] == a.data[1][0];
    assert r[RowMajor(1, 1, 1)] == a.data[1][1];
    assert r[RowMajor(1, 1, 2)] == a.data[1][2];
    assert r[4] == 0.0 && r[5] == 0.0;
    Pinned(r, [1.0, 4.0, 5.0, 6.0, 0.0, 0.0]);
  }

  lemma Pinned(r: seq<real>, s: seq<real>)
    requires |r| == |s| == 6
    requires r[0] == s[0] && r[1] == s[1] && r[2] == s[2] && r[3] == s[3] && r[4] == s[4] && r[5] == s[5]
    ensures r == s
  {
  }

  /** A column of three: entry (2, 0) is written at 2*(3-1) = 4, past the three
      slots, so `ToArray` throws. */
  lemma ToArrayColumnOfThree(x: real, y: real, z: real)
    ensures ToArray(FromArray([x, y, z])) == Err(IndexOutOfRange)
  {
    ToArrayFromArray([x, y, z]);
  }
}
