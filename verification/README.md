# MatrixLib in Dafny

A model of the `DFMatrix` library: a dense `Rows × Cols` matrix of numbers with
shape-checked operations, and a `Vector` specialisation that is a matrix with
a single column.

- `Matrices` (matrices.dfy) models `Matrix`. A matrix is the value
  `Matrix(rows, cols, data)`. `Valid()` says the grid is rectangular and has
  the declared extents. Entries are `real`. Each operation that allocates a
  fresh result and fills it in a nested loop is a pure function. The two
  in-place mutators return the updated matrix: the indexer's setter (`Set`)
  and `Clear`. A thrown `ArgumentException` or index error is an `Err` of the
  `Error` datatype. The operators `+`, `-` and `*` on matrices are direct
  calls to `Add`, `Subtract`, `Multiply` and `Scale`, so the functions cover
  them.
- `MatrixLaws` (matrix_laws.dfy) states what the results mean across calls.
  It covers commutativity, inverses, transpose as an involution, the identity
  as a unit of `Multiply`, the transpose of a product, and how `MatToVec`
  packs entries. It also covers tolerance equality and how `Clip` relates to a
  clamp.
- `ArrayConversion` (array_conversion.dfy) works out what `ToArray`'s index
  arithmetic does.
- `Vectors` (vectors.dfy) models `Vector`: the single-index accessor, `Sum`,
  `Mean`, and the operators that compute a matrix result and re-pack it with
  `MatToVec`.
- `Results` (results.dfy) holds the `Result` and `Option` wrappers.

`ToArray` writes entry (i, j) at position `i*(Rows-1) + j` of a `Rows*Cols`
array. `ArrayConversion.ToArraySucceedsIff` proves that it throws exactly when
the matrix has columns and `Cols < Rows - 1`. `ToArrayRowMajorWhen` proves
that it is row-major when `Rows <= 1` and also when `Cols == Rows - 1` (a 3 × 2
matrix, for instance), since the two strides coincide there. For every other
successful shape with entries, `ToArrayNotRowMajor` shows that position
Rows - 1 receives the wrong entry, and `ToArrayPlaces` says which entry each slot holds: a later row
overwrites the tail of the row before it, and the last slots stay zero (a 2 × 3
matrix [[1,2,3],[4,5,6]] gives [1,4,5,6,0,0]). `Clip` is
modelled as written: entries inside `[Min, Max]` are left at zero.

## Model

| member | source | states |
|---|---|---|
| Matrices.Zeros | Matrix/Matrix.cs:12-17 | the constructor gives a valid rows × cols grid whose every entry is zero |
| Matrices.Get | Matrix/Matrix.cs:19-22 | reading (i, j) succeeds exactly when both indices are in range, yields that entry, and otherwise is an index error |
| Matrices.Set | Matrix/Matrix.cs:19-22 | writing (i, j) succeeds exactly when both indices are in range; the shape is kept, (i, j) holds the new value and every other entry is unchanged |
| MatrixLaws.GetAfterSet | Matrix/Matrix.cs:19-22 | reading back a written entry gives the value written; reading any other entry gives what it held before |
| Matrices.Equals | Matrix/Matrix.cs:77-90 | answers true exactly when the shapes agree and every pair of corresponding entries differs by at most 0.0000001 |
| MatrixLaws.ApproxEqualReflexive | Matrix/Matrix.cs:79-89 | every matrix equals itself under the tolerance |
| MatrixLaws.ApproxEqualSymmetric | Matrix/Matrix.cs:79-89 | tolerance equality does not depend on operand order |
| MatrixLaws.ApproxEqualNotTransitive | Matrix/Matrix.cs:84 | [0] equals [1e-7] and [1e-7] equals [2e-7], but [0] does not equal [2e-7] |
| MatrixLaws.ApproxEqualExamples | Matrix/Matrix.cs:79-89 | entries 1e-8 apart compare equal and entries 1e-6 apart do not |
| Matrices.Copy | Matrix/Matrix.cs:103-105 | scaling by one yields a matrix equal to the original |
| Matrices.Clear | Matrix/Matrix.cs:106-112 | every entry becomes zero and the shape is unchanged |
| MatrixLaws.ScaleByZeroClears | Matrix/Matrix.cs:106-112 | both scaling by zero and `Clear` give the zero matrix of the input's shape |
| Matrices.FromArray | Matrix/Matrix.cs:130-136 | an array of length n becomes an n × 1 column with entry (i, 0) equal to element i |
| Matrices.ToArray | Matrix/Matrix.cs:138-147 | when it succeeds the array has Rows*Cols slots; when it fails the error is an index error |
| ArrayConversion.ToArraySucceedsIff | Matrix/Matrix.cs:138-147 | the writes all land inside the array exactly when Cols == 0 or Cols >= Rows - 1 |
| ArrayConversion.WriteRowEffect | Matrix/Matrix.cs:141-145 | the inner loop over row i writes entry (i, k) at i*stride + k for every remaining column k and changes no slot outside that stretch |
| ArrayConversion.WriteRowsEffect | Matrix/Matrix.cs:140-145 | the outer loop writes entry (k, j) at k*stride + j, which survives when k is the last row or j < stride, and changes no slot before its first write or after its last |
| ArrayConversion.ToArrayPlaces | Matrix/Matrix.cs:138-147 | when the conversion succeeds, entry (i, j) is at i*(Rows-1) + j whenever i is the last row or j < Rows - 1 (so no later row overwrites it), and every slot from (Rows-1)*(Rows-1) + Cols on is still zero |
| ArrayConversion.ToArrayTwoByThree | Matrix/Matrix.cs:143 | [[1,2,3],[4,5,6]] converts to [1,4,5,6,0,0]: row 1 overwrites entries 2 and 3 of row 0, and the last two slots stay zero |
| ArrayConversion.ToArrayRowMajorWhen | Matrix/Matrix.cs:138-147 | with at most one row, or with exactly Rows - 1 columns, the array is the row-major flattening |
| ArrayConversion.ToArrayNotRowMajor | Matrix/Matrix.cs:138-147 | conversely, with two or more rows and Cols >= Rows the conversion succeeds, but position Rows - 1 holds entry (1, 0) where row-major order has entry (0, Rows - 1) |
| ArrayConversion.ToArrayFromArray | Matrix/Matrix.cs:130-147 | converting an array to a column and back gives the array again for length at most 2, and throws an index error for any longer array |
| ArrayConversion.ToArrayTwoByTwo | Matrix/Matrix.cs:143 | [[1,2],[3,4]] converts to [1,3,4,0], not the row-major [1,2,3,4] |
| ArrayConversion.ToArrayRowMajorTwoByTwo | Matrix/Matrix.cs:138-147 | the corrected conversion, with stride Cols, turns [[1,2],[3,4]] into [1,2,3,4] |
| ArrayConversion.ToArrayColumnOfThree | Matrix/Matrix.cs:143 | a column of three entries throws an index error |
| ArrayConversion.ToArrayRowMajorFlattens | Matrix/Matrix.cs:138-147 | the same loops with stride Cols always succeed and give the row-major flattening |
| ArrayConversion.ToArrayRowMajorFromArray | Matrix/Matrix.cs:130-147 | with stride Cols, converting an array to a column and back returns it unchanged for every length |
| Matrices.HadamardMultiply | Matrix/Matrix.cs:171-182 | fails with a shape mismatch exactly when rows or columns differ; otherwise has a's shape and entry (i, j) = a[i,j]*b[i,j] |
| MatrixLaws.HadamardCommutes | Matrix/Matrix.cs:171-182 | the Hadamard product gives the same result, or the same error, with its operands swapped |
| Matrices.Map | Matrix/Matrix.cs:184-192 | never fails; the result has the input's shape and entry (i, j) = f(a[i,j]) |
| MatrixLaws.MapComposes | Matrix/Matrix.cs:184-192 | mapping f and then g equals mapping their composition |
| MatrixLaws.MapIdentity | Matrix/Matrix.cs:184-192 | mapping the identity function returns the matrix unchanged |
| Matrices.SetAll | Matrix/Matrix.cs:194-210 | never fails; the result has the input's shape and every entry equal to num |
| MatrixLaws.SetAllOverwrites | Matrix/Matrix.cs:194-202 | filling twice is the same as filling once with the second value |
| MatrixLaws.SetAllZeroIsClear | Matrix/Matrix.cs:106-112 | filling with zero and clearing give the same matrix |
| Matrices.Add | Matrix/Matrix.cs:212-223 | fails with a shape mismatch exactly when rows or columns differ; otherwise has a's shape and entry (i, j) = a[i,j] + b[i,j] |
| MatrixLaws.AddCommutes | Matrix/Matrix.cs:212-223 | addition gives the same result, or the same error, with its operands swapped |
| Matrices.Subtract | Matrix/Matrix.cs:225-236 | fails with a shape mismatch exactly when rows or columns differ; otherwise has a's shape and entry (i, j) = a[i,j] - b[i,j] |
| MatrixLaws.SubtractUndoesAdd | Matrix/Matrix.cs:212-236 | for operands of equal shape, subtracting b from the sum a + b gives back a |
| Matrices.AddScalar | Matrix/Matrix.cs:238-247 | never fails; the result has the input's shape and entry (i, j) = a[i,j] + b |
| Matrices.SubtractScalar | Matrix/Matrix.cs:249-258 | never fails; the result has the input's shape and entry (i, j) = a[i,j] - b |
| MatrixLaws.SubtractScalarUndoesAddScalar | Matrix/Matrix.cs:238-258 | adding and then subtracting the same scalar returns the original matrix |
| Matrices.Multiply | Matrix/Matrix.cs:261-276 | fails, reporting a.Cols and b.Rows, exactly when they differ; otherwise the result is a.Rows × b.Cols and entry (i, j) is the left-to-right sum over k of a[i,k]*b[k,j] starting from 0 |
| MatrixLaws.MultiplyIdentityLeft | Matrix/Matrix.cs:261-276 | the identity matrix times a is a |
| MatrixLaws.MultiplyIdentityRight | Matrix/Matrix.cs:261-276 | a times the identity matrix is a |
| MatrixLaws.TransposeOfProduct | Matrix/Matrix.cs:261-295 | the transpose of a product is the product of the transposes in reverse order |
| MatrixLaws.MultiplyByTransposeExample | Matrix/Matrix.cs:261-295 | [[1,2],[3,4]] transposes to [[1,3],[2,4]], and their product is [[5,11],[11,25]] |
| MatrixLaws.ShapeMismatchExamples | Matrix/Matrix.cs:212-276 | a 2×3 plus a 3×2 is a shape mismatch; a 2×3 times a 2×3 fails, reporting 3 and 2 |
| Matrices.Scale | Matrix/Matrix.cs:278-286 | never fails; the result has the input's shape and entry (i, j) = a[i,j]*s |
| Matrices.Transpose | Matrix/Matrix.cs:287-295 | the result is Cols × Rows with entry (i, j) = a[j,i] |
| MatrixLaws.TransposeInvolutive | Matrix/Matrix.cs:287-295 | transposing twice gives back the original matrix |
| Matrices.MatToVec | Matrix/Matrix.cs:297-312 | fails, reporting the extents, exactly when there is more than one row and more than one column; otherwise gives a Rows*Cols × 1 column with a[i,j] at position i*Cols + j |
| MatrixLaws.MatToVecOfRow | Matrix/Matrix.cs:297-312 | a 1 × k row is packed into the k × 1 column that is its transpose |
| MatrixLaws.MatToVecOfColumn | Matrix/Matrix.cs:297-312 | a column is packed into itself |
| MatrixLaws.MatToVecExamples | Matrix/Matrix.cs:297-312 | the row [x, y, z] becomes the column [x, y, z]; a 3 × 3 matrix fails, reporting 3 and 3 |
| Matrices.VecToMat | Matrix/Matrix.cs:314-316 | a vector viewed as a matrix is the same value: a valid column, unchanged |
| MatrixLaws.VecToMatRoundTrip | Matrix/Matrix.cs:297-316 | viewing a vector as a matrix and packing it again gives the vector back |
| Matrices.Clip | Matrix/Matrix.cs:317-330 | keeps the input's shape; entries below lo become lo, entries above hi become hi, and every other entry is zero |
| MatrixLaws.ClipIsMaskedClamp | Matrix/Matrix.cs:317-330 | outside [lo, hi] an entry agrees with the clamp; inside it is zero |
| MatrixLaws.ClipExample | Matrix/Matrix.cs:317-330 | Clip([[-1,5,10]], 0, 8) is [[0,0,8]], whereas the clamp gives [[0,5,8]] |
| Matrices.Clamp | Matrix/Matrix.cs:317-330 | keeps the input's shape; entries below lo become lo, entries above hi become hi, and all other entries are copied |
| MatrixLaws.ClampBoundsAndIdempotent | Matrix/Matrix.cs:317-330 | with lo <= hi every clamped entry lies in [lo, hi], entries already there are kept, and clamping twice is clamping once |
| Vectors.New | Matrix/Vector.cs:4-5 | a vector of length n is an n × 1 matrix of zeros |
| Vectors.At | Matrix/Vector.cs:7-14 | reading index i succeeds exactly when 0 <= i < Length and yields entry (i, 0); otherwise it is an index error |
| Vectors.Put | Matrix/Vector.cs:7-14 | writing index i succeeds exactly when 0 <= i < Length and keeps the vector's length |
| Vectors.AtAfterPut | Matrix/Vector.cs:7-14 | reading back index i gives the value written there; every other index reads as before |
| Vectors.Sum | Matrix/Vector.cs:16-22 | returns the left-to-right sum of the entries, 0 for an empty vector |
| Vectors.Mean | Matrix/Vector.cs:24-26 | is undefined exactly for an empty vector; otherwise the mean times Length equals the sum |
| Vectors.FilledSumsAndMean | Matrix/Vector.cs:16-26 | a vector filled with c sums to Length*c and has mean c |
| Vectors.PlusMatrix | Matrix/Vector.cs:31-33 | fails with a shape mismatch unless r is Length × 1; otherwise gives a vector of the same length holding the entrywise sum |
| Vectors.MinusMatrix | Matrix/Vector.cs:28-30 | fails with a shape mismatch unless r is Length × 1; otherwise gives a vector of the same length holding the entrywise difference |
| Vectors.PlusMatrixSums | Matrix/Vector.cs:16-33 | the sum of v + r is the sum of v plus the sum of r |
| Vectors.MinusMatrixUndoesPlusMatrix | Matrix/Vector.cs:28-33 | subtracting a vector undoes adding it |
| Vectors.TimesMatrix | Matrix/Vector.cs:34-36 | fails on the inner extent unless r has one row, and fails to re-pack when Length > 1 and r has more than one column; otherwise gives a vector of length Length*r.Cols holding v[i]*r[0,j] at position i*r.Cols + j |
| Vectors.TimesUnitMatrixIsScaling | Matrix/Vector.cs:34-44 | multiplying by the 1 × 1 matrix [[c]] agrees with multiplying by the scalar c |
| Vectors.TimesWideRow | Matrix/Vector.cs:34-36 | times a 1 × k row with k > 1, the product succeeds exactly for Length <= 1; for Length 1 it is the scaled row turned into a column |
| Vectors.PlusScalar | Matrix/Vector.cs:40-42 | never fails; gives a vector of the same length with x added to every entry |
| Vectors.MinusScalar | Matrix/Vector.cs:37-39 | never fails; gives a vector of the same length with x subtracted from every entry |
| Vectors.TimesScalar | Matrix/Vector.cs:43-45 | never fails; gives a vector of the same length with every entry multiplied by x |
| Vectors.MinusScalarUndoesPlusScalar | Matrix/Vector.cs:37-42 | subtracting a scalar undoes adding it |
| Vectors.TimesScalarSums | Matrix/Vector.cs:16-22 | the sum (`Sum`) of v * x, the scalar product of Matrix/Vector.cs:43-45, is x times the sum of v |

## Left out

- `ToJson` / `FromJson` (Matrix/Matrix.cs:116-122) delegate to an external JSON library that is not part of this model.
- `ToString` (Matrix/Matrix.cs:23-32) only formats text.
- Both `Randomize` overloads (Matrix/Matrix.cs:149-169) draw from a freshly constructed system random generator.
- `GetHashCode` (Matrix/Matrix.cs:92-102) XORs the platform's hash codes of doubles. That is a foreign call, and the result is not consistent with tolerance equality in any case.
- The implicit `double[,]` conversions and `UpdateData` (Matrix/Matrix.cs:60-69, 124-128; Matrix/Vector.cs:46-55) share or replace the underlying array without checks. Aliasing between matrices is not modelled: every matrix here is an immutable value.
- The null handling of `==`, `!=` and `Equals` (Matrix/Matrix.cs:34-41, 73-75) is about null references, which a value model does not have.
- Floating point: entries are reals, so IEEE rounding, NaN, infinities and the effect of accumulation order are not modelled. `Multiply` and `Sum` still accumulate left to right from zero, as the source does. The tolerance is the exact real 0.0000001, not the nearest double.
- Negative dimensions: `Rows`, `Cols` and a vector's length are `nat`. The runtime's exception for a negative array size is not modelled.
- The `int` and `float` overloads of `SetAll` (Matrix/Matrix.cs:204-210) convert to double and delegate. They are covered by `SetAll` on reals, and the conversions themselves are not modelled.
- Matrices.Map: the function argument is a total, pure `real -> real`. In the source a `Func<double, double>` (Matrix/Matrix.cs:184-192) may throw or have side effects, and `Map` would then throw or repeat them. That is not modelled.
- In-place mutation: `Set`, `Clear` and `Vectors.Put` return the updated value instead of changing a shared object.
- Matrices.ToArray: `Length` is the 32-bit product `Cols * Rows` (Matrix/Matrix.cs:10), and `ToArray` indexes with the 32-bit `i * (Rows - 1) + j` (line 143). In the source, a matrix with more than 2^31 - 1 entries wraps `Length`, and the conversion then throws, at the allocation (line 139) or at the first write (line 143). Here sizes and positions are unbounded integers, so such a matrix converts with `Ok`. 32-bit overflow is not modelled anywhere.
- Vectors.Mean: on an empty vector the source returns the NaN of 0/0. Here that case is `None`, not a number.

## Findings

| source | as written | input that shows it | evidently intended | confidence | as-written member | corrected member |
|---|---|---|---|---|---|---|
| Matrix/Matrix.cs:143 | entry (i, j) is written at position i*(Rows-1) + j | [[1,2],[3,4]] converts to [1,3,4,0]; the column [x,y,z] throws an index error | position i*Cols + j (row-major), so that `ToArray(FromArray(s))` returns s | high; not executed | ArrayConversion.ToArrayTwoByTwo | ArrayConversion.ToArrayRowMajorFlattens |
| Matrix/Matrix.cs:317-330 | an entry inside [Min, Max] is not copied, so it stays at the result's initial zero | Clip([[-1,5,10]], 0, 8) is [[0,0,8]] | a clamp that copies in-range entries, giving [[0,5,8]] | medium; not executed | MatrixLaws.ClipExample | MatrixLaws.ClampBoundsAndIdempotent |

`Matrices.ToArray` and `Matrices.Clip` model the code as written.
`Matrices.ToArrayRowMajor` and `Matrices.Clamp` are the corrected
definitions. No other operation in the library calls either one.
