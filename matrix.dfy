/** The sparse `Matrix` class: a row count, a column count and a coordinate
    list, with validated setters, the constructors, the four operations that
    each build a new matrix, and structural equality. */
module MatrixTranspose {
  import opened SparseSpec
  import opened Accumulate

  class Matrix {
    var n: int                 // rows (`N`)
    var m: int                 // columns (`M`)
    var entries: seq<Entry>    // `NonZeroElements`

    /** Every constructor and setter keeps both dimensions positive.  Entries
        are NOT kept inside the bounds: `SetN` and `SetM` do not look at them. */
    ghost predicate Valid()
      reads this
    {
      n > 0 && m > 0
    }

    /** The default constructor: a 1 x 1 matrix holding (0, 0, 1.0), set
        directly without the validating setters. */
    constructor ()
      ensures Valid() && n == 1 && m == 1 && entries == [Entry(0, 0, 1.0)]
    {
      n := 1;
      m := 1;
      entries := [Entry(0, 0, 1.0)];
    }

    /** The `N` setter: a value <= 0 raises and leaves the matrix unchanged. */
    method SetN(value: int) returns (r: Outcome)
      modifies this`n
      ensures old(Valid()) ==> Valid()
      ensures r == if value <= 0 then Fail(DimensionError) else Pass
      ensures n == if value <= 0 then old(n) else value
    {
      if value <= 0 {
        return Fail(DimensionError);
      }
      n := value;
      r := Pass;
    }

    /** The `M` setter: a value <= 0 raises and leaves the matrix unchanged. */
    method SetM(value: int) returns (r: Outcome)
      modifies this`m
      ensures old(Valid()) ==> Valid()
      ensures r == if value <= 0 then Fail(DimensionError) else Pass
      ensures m == if value <= 0 then old(m) else value
    {
      if value <= 0 {
        return Fail(DimensionError);
      }
      m := value;
      r := Pass;
    }

    /** The `NonZeroElements` setter: every entry is checked against the
        current N and M before anything is stored; on success the list is
        stored as given (duplicates and zero values included). */
    method SetNonZeroElements(es: seq<Entry>) returns (r: Outcome)
      modifies this`entries
      ensures old(Valid()) ==> Valid()
      ensures r == if AllInBounds(es, n, m) then Pass else Fail(OutOfBounds)
      ensures entries == if r.Pass? then es else old(entries)
    {
      var k := 0;
      while k < |es|
        invariant 0 <= k <= |es|
        invariant AllInBounds(es[..k], n, m)
      {
        var e := es[k];
        if e.row < 0 || e.row >= n || e.col < 0 || e.col >= m {
          return Fail(OutOfBounds);
        }
        k := k + 1;
      }
      assert es[..k] == es;
      entries := es;
      r := Pass;
    }

    /** `new Matrix(n, m)`: N, then M through their setters, and no entries. */
    static method Create(rows: int, cols: int) returns (r: Result<Matrix>)
      ensures r.Failure? <==> rows <= 0 || cols <= 0
      ensures r.Failure? ==> r.error == DimensionError
      ensures r.Success? ==> fresh(r.value) && r.value.Valid()
      ensures r.Success? ==> r.value.n == rows && r.value.m == cols && r.value.entries == []
    {
      var x := new Matrix();
      var o := x.SetN(rows);
      if o.Fail? {
        return Failure(o.error);
      }
      o := x.SetM(cols);
      if o.Fail? {
        return Failure(o.error);
      }
      x.entries := [];
      r := Success(x);
    }

    /** `new Matrix(n, m, nonZeroElements)`: N, M, then the entries, each
        through its setter. */
    static method CreateWith(rows: int, cols: int, es: seq<Entry>) returns (r: Result<Matrix>)
      ensures r.Failure? <==> rows <= 0 || cols <= 0 || !AllInBounds(es, rows, cols)
      ensures r.Failure? ==> r.error == if rows <= 0 || cols <= 0 then DimensionError else OutOfBounds
      ensures r.Success? ==> fresh(r.value) && r.value.Valid()
      ensures r.Success? ==> r.value.n == rows && r.value.m == cols && r.value.entries == es
    {
      var x := new Matrix();
      var o := x.SetN(rows);
      if o.Fail? {
        return Failure(o.error);
      }
      o := x.SetM(cols);
      if o.Fail? {
        return Failure(o.error);
      }
      o := x.SetNonZeroElements(es);
      if o.Fail? {
        return Failure(o.error);
      }
      r := Success(x);
    }

    /** The sum of two matrices of the same shape: its entries are the
        non-zero cells of the accumulator, in row-major order. */
    method Add(other: Matrix) returns (r: Result<Matrix>)
      requires Valid() && other.Valid()
      ensures r.Failure? <==>
        other.n != n || other.m != m || !AllInBounds(entries, n, m) || !AllInBounds(other.entries, n, m)
      ensures r.Failure? ==>
        r.error == if other.n != n || other.m != m then DimensionMismatch else IndexOutOfRange
      ensures r.Success? ==> fresh(r.value) && r.value.Valid() && r.value.n == n && r.value.m == m
      ensures r.Success? ==> IsSparseSum(r.value.entries, entries, other.entries, n, m)
    {
      if other.n != n || other.m != m {
        return Failure(DimensionMismatch);
      }
      var sum := AccumulateSum(entries, other.entries, n, m);
      if sum.Failure? {
        return Failure(sum.error);
      }
      r := CreateWith(n, m, sum.value);
    }

    /** The product with a matrix whose row count is this one's column count:
        an n x other.m matrix of the non-zero accumulated cells, row-major. */
    method Multyply(other: Matrix) returns (r: Result<Matrix>)
      requires Valid() && other.Valid()
      ensures r.Failure? <==> m != other.n || MulFaults(entries, other.entries, n, other.m)
      ensures r.Failure? ==> r.error == if m != other.n then DimensionMismatch else IndexOutOfRange
      ensures r.Success? ==> fresh(r.value) && r.value.Valid() && r.value.n == n && r.value.m == other.m
      ensures r.Success? ==> IsSparseProduct(r.value.entries, entries, other.entries, n, other.m)
    {
      if m != other.n {
        return Failure(DimensionMismatch);
      }
      var product := AccumulateProduct(entries, other.entries, n, other.m);
      if product.Failure? {
        return Failure(product.error);
      }
      r := CreateWith(n, other.m, product.value);
    }

    /** Every entry rescaled by `num`, same shape, same order, zeros kept.
        The new matrix re-validates the entries against N and M. */
    method MultyplyByNumber(num: real) returns (r: Result<Matrix>)
      requires Valid()
      ensures r.Failure? <==> !AllInBounds(entries, n, m)
      ensures r.Failure? ==> r.error == OutOfBounds
      ensures r.Success? ==> fresh(r.value) && r.value.Valid() && r.value.n == n && r.value.m == m
      ensures r.Success? ==> |r.value.entries| == |entries|
      ensures r.Success? ==> forall k :: 0 <= k < |entries| ==>
        r.value.entries[k] == Entry(entries[k].row, entries[k].col, entries[k].value * num)
      ensures r.Success? ==> r.value.entries == Scaled(entries, num)
    {
      var scaled := [];
      var k := 0;
      while k < |entries|
        invariant 0 <= k <= |entries|
        invariant scaled == Scaled(entries[..k], num)
      {
        var e := entries[k];
        scaled := scaled + [Times(e, num)];
        assert entries[..k + 1][..k] == entries[..k];
        k := k + 1;
      }
      assert entries[..k] == entries;
      ScaledAt(entries, num);
      ScaledBounds(entries, num, n, m);
      r := CreateWith(n, m, scaled);
    }

    /** The M x N matrix whose entry k is entry k with row and column
        swapped.  The new matrix re-validates the swapped entries. */
    method Transpose() returns (r: Result<Matrix>)
      requires Valid()
      ensures r.Failure? <==> !AllInBounds(entries, n, m)
      ensures r.Failure? ==> r.error == OutOfBounds
      ensures r.Success? ==> fresh(r.value) && r.value.Valid() && r.value.n == m && r.value.m == n
      ensures r.Success? ==> |r.value.entries| == |entries|
      ensures r.Success? ==> forall k :: 0 <= k < |entries| ==>
        r.value.entries[k] == Entry(entries[k].col, entries[k].row, entries[k].value)
      ensures r.Success? ==> r.value.entries == Transposed(entries)
    {
      var transposed := [];
      var k := 0;
      while k < |entries|
        invariant 0 <= k <= |entries|
        invariant transposed == Transposed(entries[..k])
      {
        var e := entries[k];
        transposed := transposed + [Entry(e.col, e.row, e.value)];
        assert entries[..k + 1][..k] == entries[..k];
        k := k + 1;
      }
      assert entries[..k] == entries;
      TransposedAt(entries);
      TransposedBounds(entries, n, m);
      r := CreateWith(m, n, transposed);
    }

    /** `Equals`: another matrix of the same shape and entry count, each of
        whose entries occurs in the other's list. */
    predicate Equals(other: Matrix?)
      reads this, other
      ensures Equals(other) <==>
        (other != null && n == other.n && m == other.m
         && |entries| == |other.entries| && Elements(entries) <= Elements(other.entries))
    {
      other != null && n == other.n && m == other.m
      && (SameEntriesAsSubset(entries, other.entries); SameEntries(entries, other.entries))
    }

    /** `NotEquals`: the negation of Equals, conjunct by conjunct. */
    predicate NotEquals(other: Matrix?)
      reads this, other
      ensures NotEquals(other) <==>
        (other == null || n != other.n || m != other.m || |entries| != |other.entries|
         || exists k :: 0 <= k < |entries| && entries[k] !in other.entries)
    {
      !Equals(other)
    }
  }

  /** Equals is symmetric for a left matrix without repeated coordinates. */
  lemma EqualsSymmetric(x: Matrix, y: Matrix)
    requires x.Equals(y) && NoDupKeys(x.entries)
    ensures y.Equals(x)
  {
    SameEntriesSymmetric(x.entries, y.entries);
  }

  /** Matrices of the same shape holding the same entries, in any order, are equal. */
  lemma EqualsOnPermutation(x: Matrix, y: Matrix)
    requires x.n == y.n && x.m == y.m && multiset(x.entries) == multiset(y.entries)
    ensures x.Equals(y)
  {
    SameEntriesOnPermutation(x.entries, y.entries);
  }

  /** Equal matrices without repeated coordinates hold the same value in every cell. */
  lemma EqualsSameCells(x: Matrix, y: Matrix)
    requires x.Equals(y) && NoDupKeys(x.entries) && NoDupKeys(y.entries)
    ensures forall i, j :: Get(x.entries, i, j) == Get(y.entries, i, j)
  {
    SameEntriesDense(x.entries, y.entries);
  }

  /** Matrices without repeated coordinates that differ in one cell are not equal. */
  lemma NotEqualsOnDifferentCell(x: Matrix, y: Matrix, i: int, j: int)
    requires NoDupKeys(x.entries) && NoDupKeys(y.entries)
    requires Get(x.entries, i, j) != Get(y.entries, i, j)
    ensures x.NotEquals(y)
  {
    if x.Equals(y) {
      EqualsSameCells(x, y);
    }
  }
}
