/** The repository's unit-test cases, stated over the model: each lemma says
    what the model computes for the test's operands. */
module TestCases {
  import opened SparseSpec

  /** AddMatrix_MatrixWithCorrectSize: diag(1, 2) + diag(3, 4) = diag(4, 6). */
  lemma AddOfDiagonals()
    ensures IsSparseSum([Entry(0, 0, 4.0), Entry(1, 1, 6.0)],
                        [Entry(0, 0, 1.0), Entry(1, 1, 2.0)],
                        [Entry(0, 0, 3.0), Entry(1, 1, 4.0)], 2, 2)
  {
    var a := [Entry(0, 0, 1.0), Entry(1, 1, 2.0)];
    var b := [Entry(0, 0, 3.0), Entry(1, 1, 4.0)];
    var es := [Entry(0, 0, 4.0), Entry(1, 1, 6.0)];
    forall i, j | 0 <= i < 2 && 0 <= j < 2
      ensures AddCell(a, b, i, j) == (if i == j then es[i].value else 0.0)
    {
      AddCellDense(a, b, i, j);
      if i == j {
        UniqueKey(a, i, j, i);
        UniqueKey(b, i, j, i);
      } else {
        AbsentKey(a, i, j);
        AbsentKey(b, i, j);
      }
    }
  }

  /** MultyplyMatrix_MatrixWithCorrectSize: a 2 x 3 times a 3 x 2 matrix. */
  lemma ProductOfTestMatrices()
    ensures IsSparseProduct([Entry(0, 0, 4.0), Entry(0, 1, 10.0), Entry(1, 0, 18.0)],
                            [Entry(0, 0, 1.0), Entry(0, 1, 2.0), Entry(1, 2, 3.0)],
                            [Entry(0, 0, 4.0), Entry(1, 1, 5.0), Entry(2, 0, 6.0)], 2, 2)
  {
    var a := [Entry(0, 0, 1.0), Entry(0, 1, 2.0), Entry(1, 2, 3.0)];
    var b := [Entry(0, 0, 4.0), Entry(1, 1, 5.0), Entry(2, 0, 6.0)];
    var es := [Entry(0, 0, 4.0), Entry(0, 1, 10.0), Entry(1, 0, 18.0)];
    // The dense view of B, cell by cell.
    UniqueKey(b, 0, 0, 0);
    UniqueKey(b, 1, 1, 1);
    UniqueKey(b, 2, 0, 2);
    AbsentKey(b, 0, 1);
    AbsentKey(b, 1, 0);
    AbsentKey(b, 2, 1);
    var a1, a2 := [Entry(0, 0, 1.0)], [Entry(0, 0, 1.0), Entry(0, 1, 2.0)];
    assert a[..2] == a2 && a2[..1] == a1 && a1[..0] == [];
    forall i, j
      ensures MulCell(a, b, i, j) == MulCell(a2, b, i, j) + (if i == 1 then 3.0 * Get(b, 2, j) else 0.0)
      ensures MulCell(a2, b, i, j) == MulCell(a1, b, i, j) + (if i == 0 then 2.0 * Get(b, 1, j) else 0.0)
      ensures MulCell(a1, b, i, j) == (if i == 0 then 1.0 * Get(b, 0, j) else 0.0)
    {
    }
    assert MulCell(a, b, 0, 0) == 4.0;
    assert MulCell(a, b, 0, 1) == 10.0;
    assert MulCell(a, b, 1, 0) == 18.0;
    assert MulCell(a, b, 1, 1) == 0.0;
    forall i, j | 0 <= i < 2 && 0 <= j < 2 && MulCell(a, b, i, j) != 0.0
      ensures Entry(i, j, MulCell(a, b, i, j)) in es
    {
      if i == 0 && j == 0 {
        assert es[0] == Entry(i, j, MulCell(a, b, i, j));
      } else if i == 0 {
        assert es[1] == Entry(i, j, MulCell(a, b, i, j));
      } else {
        assert es[2] == Entry(i, j, MulCell(a, b, i, j));
      }
    }
  }

  /** TransposeMatrix_CorrectAnswer1: entries keep their order, coordinates swap. */
  lemma TransposeOfTestMatrix()
    ensures Transposed([Entry(0, 0, 1.0), Entry(0, 2, 2.0), Entry(1, 1, 3.0)])
         == [Entry(0, 0, 1.0), Entry(2, 0, 2.0), Entry(1, 1, 3.0)]
  {
    var es := [Entry(0, 0, 1.0), Entry(0, 2, 2.0), Entry(1, 1, 3.0)];
    TransposedAt(es);
  }

  /** MultyplyByNumber_NumberWithCorrectValue: diag(1, 2) times 3 is diag(3, 6). */
  lemma ScaleOfTestMatrix()
    ensures Scaled([Entry(0, 0, 1.0), Entry(1, 1, 2.0)], 3.0) == [Entry(0, 0, 3.0), Entry(1, 1, 6.0)]
  {
    ScaledAt([Entry(0, 0, 1.0), Entry(1, 1, 2.0)], 3.0);
  }
}
