# Sparse matrix (coordinate list) — Dafny model

This project models the `Matrix` class of the MatrixTranspose repository.
A matrix stores a row count `N`, a column count `M` and a list of
`(row, col, value)` triples, `NonZeroElements`.
Cells that no triple names read as zero.

The class offers:

- validating setters for `N`, `M` and `NonZeroElements`;
- three constructors;
- four operations that each build a new matrix: `Add`, `Multyply`, `MultyplyByNumber` and `Transpose`;
- structural equality: `Equals` and `NotEquals`.

The model keeps the source's names, spelling included (`Multyply`).

Files:

- `sparse_spec.dfy`, module `SparseSpec`, holds the values and the specification.
  - Values: the `Entry` triple, the error kinds, and `Result`/`Outcome` for the exceptions.
  - The dense view `Get(es, i, j)`: the first value stored at `(i, j)`, or 0. This is what LINQ's `FirstOrDefault` finds.
  - The cell readings the accumulators perform:
    - `LastValue`: entries written with `=`, so the last one at a coordinate wins;
    - `SumAt`: entries added with `+=`;
    - `AddCell` and `MulCell`.
  - `Emits(es, n, m, cell)` says that `es` is exactly the non-zero cells of an `n x m` grid, in row-major order.
  - The lists `Scaled` and `Transposed` that `MultyplyByNumber` and `Transpose` build.
  - The entry-list half of `Equals`.
  - The lemmas about all of these.
- `accumulate.dfy`, module `Accumulate`, holds the dense `double[N, M]` accumulators of `Add` and `Multyply`.
  - Each is a method with loops over a local `array2<real>`, proved against `IsSparseSum` / `IsSparseProduct`.
  - `CollectNonZero` holds the two nested `for` loops that read the grid back.
- `matrix.dfy`, module `MatrixTranspose`, holds the class `Matrix`.
  - Its fields are `n`, `m` and `entries`.
  - The setters are methods that return an `Outcome` and change only their own field.
  - The throwing constructors `Matrix(n, m)` and `Matrix(n, m, list)` become the static methods `Create` and `CreateWith`. They allocate, then call the setters in the source's order.
  - The operations return `Result<Matrix>`.
  - `Equals` / `NotEquals` are predicates reading both objects.
- `test_cases.dfy`, module `TestCases`, states the unit tests' arithmetic cases over the model.

Values (`double` in the source) are `real`, so sums and products are exact.
The arithmetic tests (UnitTestMatrix/UnitTest1.cs:125-244) use only exactly representable values.

Where the code is looser than a mapping from coordinates to values, the model keeps the code's behaviour:

- `Valid()` holds only the dimension invariant `N > 0 && M > 0`. Entries staying inside `[0,N) x [0,M)` is not an invariant: the `N`/`M` setters do not re-check stored entries, so shrinking a dimension can leave entries outside the new bounds.
  - So `Add` and `Multyply` return `IndexOutOfRange` where the source's dense array would throw.
  - `MultyplyByNumber` and `Transpose` return `OutOfBounds` where `new Matrix(...)` re-validates the entries they build.
- Duplicate coordinates are accepted, as the code accepts them.
  - `Add` then overwrites A's duplicates (`=`) but sums B's (`+=`).
  - `Multyply` uses the first B entry at a coordinate.
  - `Equals` is not symmetric. The lemmas `SumDuplicateAsymmetry` and `SameEntriesDuplicateAsymmetry` show both behaviours.
- `MultyplyByNumber` keeps entries that become zero. It does not filter them.
- `Equals` checks one direction only (every left entry occurs on the right) plus equal counts. It is symmetric when the left list has no repeated coordinate (`EqualsSymmetric`). A repeated triple on the left can break it (`SameEntriesDuplicateAsymmetry`).

`Matrix.Equals` and `Matrix.NotEquals` are predicates. Their contracts state the source's conjunction as a set inclusion and its negation. The lemmas `EqualsOnPermutation`, `EqualsSymmetric`, `EqualsSameCells` and `NotEqualsOnDifferentCell` below state when Equals holds and what follows from it.

## Model

| member | source | states |
|---|---|---|
| `MatrixTranspose.Matrix.constructor` | MatrixTranspose/Matrix.cs:34-39 | the default matrix is 1 x 1 holding the single entry (0, 0, 1.0) |
| `MatrixTranspose.Matrix.SetN` | MatrixTranspose/Matrix.cs:15 | a value <= 0 fails with DimensionError and leaves N unchanged; any positive value is stored and read back; nothing else changes; the dimension invariant is kept |
| `MatrixTranspose.Matrix.SetM` | MatrixTranspose/Matrix.cs:16 | a value <= 0 fails with DimensionError and leaves M unchanged; any positive value is stored and read back; nothing else changes; the dimension invariant is kept |
| `MatrixTranspose.Matrix.SetNonZeroElements` | MatrixTranspose/Matrix.cs:20-31 | fails with OutOfBounds exactly when some triple lies outside [0,N) x [0,M); on failure the stored list is unchanged; on success the given list is stored as is; the dimension invariant is kept |
| `MatrixTranspose.Matrix.Create` | MatrixTranspose/Matrix.cs:41-46 | fails with DimensionError exactly when a dimension is <= 0; otherwise a fresh n x m matrix with no entries |
| `MatrixTranspose.Matrix.CreateWith` | MatrixTranspose/Matrix.cs:48-53 | DimensionError for a dimension <= 0, else OutOfBounds for an out-of-range triple, else a fresh matrix storing exactly those dimensions and that list |
| `MatrixTranspose.Matrix.Add` | MatrixTranspose/Matrix.cs:55-87 | DimensionMismatch unless both shapes agree; IndexOutOfRange if an entry lies outside the grid; otherwise a fresh matrix of the same shape whose entries are the non-zero accumulated cells in row-major order |
| `Accumulate.AccumulateSum` | MatrixTranspose/Matrix.cs:62-84 | fails exactly when an entry of either operand lies outside the grid; otherwise returns the row-major list of non-zero cells of "last A value + sum of B values" |
| `Accumulate.CollectNonZero` | MatrixTranspose/Matrix.cs:75-84 | the result is strictly row-major, each entry is a non-zero in-bounds cell with its value, and every non-zero cell is in it |
| `MatrixTranspose.Matrix.Multyply` | MatrixTranspose/Matrix.cs:89-123 | DimensionMismatch unless this.M == other.N; IndexOutOfRange exactly when an A entry with a row outside [0,N) meets a B match; otherwise a fresh N x other.M matrix of the non-zero accumulated cells, row-major |
| `Accumulate.AccumulateProduct` | MatrixTranspose/Matrix.cs:96-120 | fails exactly when an A entry with a row outside the grid has a B match in some column; otherwise returns the row-major non-zero cells of the sum, over A's entries (i,k,v), of v times the first B value at (k,j) |
| `MatrixTranspose.Matrix.MultyplyByNumber` | MatrixTranspose/Matrix.cs:125-134 | same shape, same entry count, entry k keeps its coordinates and has its value times num (zeros kept); OutOfBounds exactly when the stored entries are outside the current bounds |
| `MatrixTranspose.Matrix.Transpose` | MatrixTranspose/Matrix.cs:136-145 | shape M x N, same entry count, entry k is entry k with row and column swapped; OutOfBounds exactly when the stored entries are outside the current bounds |
| `SparseSpec.Scaled` | MatrixTranspose/Matrix.cs:127-132 | the rescaled list has as many entries as the input |
| `SparseSpec.Transposed` | MatrixTranspose/Matrix.cs:138-143 | the transposed list has as many entries as the input |
| `SparseSpec.LookupFirst` | MatrixTranspose/Matrix.cs:103 | the lookup returns the value of the first entry at the coordinate, as FirstOrDefault does |
| `SparseSpec.AbsentKey` | MatrixTranspose/Matrix.cs:63-73 | a coordinate no entry names reads as 0 under lookup, `=`-overwrite and `+=`-sum |
| `SparseSpec.UniqueKey` | MatrixTranspose/Matrix.cs:65-73 | with unique coordinates, the one entry at (i,j) is the value under lookup, `=`-overwrite and `+=`-sum |
| `SparseSpec.SingleValue` | MatrixTranspose/Matrix.cs:65-73 | with unique coordinates, last-write, sum and first-match readings of a cell agree |
| `SparseSpec.EmitsUnique` | MatrixTranspose/Matrix.cs:75-84 | the row-major emission of a grid is unique: two lists emitted from the same grid are equal |
| `SparseSpec.EmitsDense` | MatrixTranspose/Matrix.cs:75-86 | an emitted list has no duplicate coordinates, satisfies the bounds invariant, and its dense view equals the grid |
| `SparseSpec.AddCellDense` | MatrixTranspose/Matrix.cs:65-73 | when neither operand repeats a coordinate, Add's accumulator cell is A(i,j) + B(i,j) |
| `SparseSpec.SumDense` | MatrixTranspose/Matrix.cs:62-86 | read densely, the result of Add is the cell-wise sum of its operands (operands without duplicates) |
| `SparseSpec.SumCommutes` | MatrixTranspose/Matrix.cs:62-86 | Add(A, B) and Add(B, A) emit the same list when neither repeats a coordinate |
| `SparseSpec.SumAssociates` | MatrixTranspose/Matrix.cs:62-86 | (A + B) + C and A + (B + C) emit the same list when no operand repeats a coordinate |
| `SparseSpec.SumDuplicateAsymmetry` | MatrixTranspose/Matrix.cs:67-72 | a repeated coordinate in A is overwritten (last value) while in B it is summed |
| `SparseSpec.MulCellDense` | MatrixTranspose/Matrix.cs:99-109 | with A's coordinates unique and its columns below the inner dimension, Multyply's cell (i,j) is the sum over t of A(i,t) * B(t,j) |
| `SparseSpec.ProductDense` | MatrixTranspose/Matrix.cs:96-122 | read densely, the result of Multyply is the matrix product of the dense views |
| `SparseSpec.ScaledAt` | MatrixTranspose/Matrix.cs:129-132 | rescaling keeps the count, the order and every coordinate, and multiplies each value by num |
| `SparseSpec.ScaledByOne` | MatrixTranspose/Matrix.cs:129-132 | rescaling by 1 gives back the same list |
| `SparseSpec.ScaledByZero` | MatrixTranspose/Matrix.cs:129-132 | rescaling by 0 keeps every entry, now with value 0: zeros are not filtered |
| `SparseSpec.ScaledBounds` | MatrixTranspose/Matrix.cs:133 | the rescaled list is in bounds exactly when the original is |
| `SparseSpec.ScaledGet` | MatrixTranspose/Matrix.cs:129-132 | read densely, every cell of the rescaled list is num times the original cell |
| `SparseSpec.TransposedAt` | MatrixTranspose/Matrix.cs:140-143 | entry k of the transposed list is entry k with row and column swapped, count preserved |
| `SparseSpec.TransposedTwice` | MatrixTranspose/Matrix.cs:136-145 | transposing twice gives back the original entry list |
| `SparseSpec.TransposedBounds` | MatrixTranspose/Matrix.cs:144 | the transposed list is inside [0,M) x [0,N) exactly when the original is inside [0,N) x [0,M) |
| `SparseSpec.TransposedNoDup` | MatrixTranspose/Matrix.cs:140-143 | transposing neither creates nor removes duplicate coordinates |
| `SparseSpec.TransposedGet` | MatrixTranspose/Matrix.cs:140-143 | read densely, cell (i,j) of the transposed list is cell (j,i) of the original |
| `SparseSpec.SameEntriesSymmetric` | MatrixTranspose/Matrix.cs:152-157 | the entry-list comparison of Equals is symmetric when the left list has unique coordinates |
| `SparseSpec.SameEntriesDuplicateAsymmetry` | MatrixTranspose/Matrix.cs:152-157 | with a repeated entry on the left, the comparison holds one way and fails the other |
| `SparseSpec.SameEntriesDense` | MatrixTranspose/Matrix.cs:152-157 | equal entry lists without duplicates have the same value in every cell |
| `MatrixTranspose.Matrix.Equals` | MatrixTranspose/Matrix.cs:147-158 | true exactly when the other object is a matrix with the same N and M, as many triples, and every triple of this list among the other's triples |
| `MatrixTranspose.Matrix.NotEquals` | MatrixTranspose/Matrix.cs:160-163 | true exactly when the other is null, N, M or the count differ, or some triple of this list is missing from the other's |
| `SparseSpec.SameEntriesAsSubset` | MatrixTranspose/Matrix.cs:152-157 | the count-and-membership comparison holds exactly when the counts agree and this list's set of triples is contained in the other's |
| `SparseSpec.SameEntriesOnPermutation` | MatrixTranspose/Matrix.cs:152-157 | two lists holding the same triples in any order, with multiplicity, pass the comparison |
| `MatrixTranspose.EqualsOnPermutation` | MatrixTranspose/Matrix.cs:147-158 | matrices of the same shape whose lists hold the same triples in any order are Equals |
| `MatrixTranspose.EqualsSymmetric` | MatrixTranspose/Matrix.cs:147-158 | if x.Equals(y) and x has no repeated coordinate, then y.Equals(x) |
| `MatrixTranspose.EqualsSameCells` | MatrixTranspose/Matrix.cs:147-158 | equal matrices without repeated coordinates hold the same value in every cell |
| `MatrixTranspose.NotEqualsOnDifferentCell` | MatrixTranspose/Matrix.cs:160-163 | matrices without repeated coordinates that differ in some cell are NotEquals |
| `TestCases.AddOfDiagonals` | UnitTestMatrix/UnitTest1.cs:125-151 | the model's Add of diag(1,2) and diag(3,4) emits exactly [(0,0,4), (1,1,6)] |
| `TestCases.ProductOfTestMatrices` | UnitTestMatrix/UnitTest1.cs:164-193 | the model's Multyply of the test's 2 x 3 and 3 x 2 matrices emits exactly [(0,0,4), (0,1,10), (1,0,18)] |
| `TestCases.TransposeOfTestMatrix` | UnitTestMatrix/UnitTest1.cs:221-244 | the model's Transpose of the test matrix gives [(0,0,1), (2,0,2), (1,1,3)] in that order |
| `TestCases.ScaleOfTestMatrix` | UnitTestMatrix/UnitTest1.cs:196-218 | the model's MultyplyByNumber of diag(1,2) by 3 gives [(0,0,3), (1,1,6)] |

## Left out

- `GetHashCode` (MatrixTranspose/Matrix.cs:165-179) is not modelled. It relies on 32-bit wrapping arithmetic and on `double.GetHashCode`, a runtime call whose result the model cannot see. It is also order-dependent: equal matrices whose entries are stored in different orders may hash differently.
- `ToString` (MatrixTranspose/Matrix.cs:181-201) is not modelled. Its text comes from the culture-dependent `double.ToString("G")`, which is a runtime formatting call.
- `IMatrix` (MatrixTranspose/IMatrix.cs) is only an interface. The model has the single concrete class. The `(Matrix)` downcasts in `Add` and `Multyply` always succeed there.
- The null check of the `NonZeroElements` setter (MatrixTranspose/Matrix.cs:22) is not modelled. A Dafny sequence cannot be null. A null triple inside the list cannot occur either, because `Entry` is a datatype. On such a triple the source's check at line 25 throws `NullReferenceException`.
- A null operand of `Add` or `Multyply` is excluded by the parameter type `Matrix`. The source would throw `NullReferenceException` when it reads `matrix.N` (MatrixTranspose/Matrix.cs:57, 91). That error path is not modelled.
- IEEE-754 `double` behaviour is not modelled: no rounding, NaN, infinities or `-0.0`. Values are exact `real`s, so the `!= 0` tests at lines 79 and 115 see no negative zero.
- Aliasing of the entry list is not modelled. The source's getter hands out the stored `List` and its setter keeps the caller's list, so later changes by the caller show through. The model stores an immutable sequence.
- The linear `FirstOrDefault` scan in `Multyply` (MatrixTranspose/Matrix.cs:103) is not a loop here. It is the first-match function `Lookup`, which LINQ evaluates without mutable state.
- `SparseSpec.ProductDense`: it states the textbook product only for an A without repeated coordinates. With duplicates in A, the exact accumulated value is still given by `MulCell` in `Multyply`'s contract.
- `SparseSpec.SumDense`: it states the cell-wise sum only for operands without repeated coordinates. With duplicates, the exact accumulated value is still given by `AddCell` in `Add`'s contract.
- Associativity of `Multyply` is not proved. It needs an exchange of the two nested `DenseDot` sums over the inner dimensions, which the model does not carry out. `Add` is proved commutative (`SumCommutes`) and associative (`SumAssociates`).
- Memory exhaustion when allocating a very large dense accumulator is not modelled.
- The MSTest harness itself is not modelled. Its arithmetic cases appear as the `TestCases` lemmas.
