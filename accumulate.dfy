/** The dense accumulators of Add and Multyply: a local `double[N, M]` grid
    filled from the coordinate lists, then read back in row-major order,
    keeping only the non-zero cells. */
module Accumulate {
  import opened SparseSpec

  /** The two nested `for` loops that read the grid back: every non-zero
      cell, in row-major order. */
  method CollectNonZero(acc: array2<real>) returns (es: seq<Entry>)
    ensures RowMajor(es)
    ensures forall k :: 0 <= k < |es| ==>
      InBounds(es[k], acc.Length0, acc.Length1) && es[k].value != 0.0
      && es[k].value == acc[es[k].row, es[k].col]
    ensures forall i, j :: 0 <= i < acc.Length0 && 0 <= j < acc.Length1 && acc[i, j] != 0.0 ==>
      Entry(i, j, acc[i, j]) in es
  {
    es := [];
    var i := 0;
    while i < acc.Length0
      invariant 0 <= i <= acc.Length0
      invariant RowMajor(es)
      invariant forall k :: 0 <= k < |es| ==>
        0 <= es[k].row < i && 0 <= es[k].col < acc.Length1 && es[k].value != 0.0
        && es[k].value == acc[es[k].row, es[k].col]
      invariant forall i', j :: 0 <= i' < i && 0 <= j < acc.Length1 && acc[i', j] != 0.0 ==>
        Entry(i', j, acc[i', j]) in es
    {
      var j := 0;
      while j < acc.Length1
        invariant 0 <= j <= acc.Length1
        invariant RowMajor(es)
        invariant forall k :: 0 <= k < |es| ==>
          Before(es[k], Entry(i, j, 0.0)) && 0 <= es[k].row <= i && 0 <= es[k].col < acc.Length1
          && es[k].value != 0.0 && es[k].value == acc[es[k].row, es[k].col]
        invariant forall i', j' :: 0 <= i' < i && 0 <= j' < acc.Length1 && acc[i', j'] != 0.0 ==>
          Entry(i', j', acc[i', j']) in es
        invariant forall j' :: 0 <= j' < j && acc[i, j'] != 0.0 ==> Entry(i, j', acc[i, j']) in es
      {
        if acc[i, j] != 0.0 {
          es := es + [Entry(i, j, acc[i, j])];
        }
        j := j + 1;
      }
      i := i + 1;
    }
  }

  /** Add's accumulator on an n x m grid: A's entries written with `=`, then
      B's entries added with `+=`, then the non-zero cells collected.  An entry
      outside the grid raises IndexOutOfRangeException. */
  method AccumulateSum(a: seq<Entry>, b: seq<Entry>, n: nat, m: nat) returns (r: Result<seq<Entry>>)
    ensures r.Failure? <==> !(AllInBounds(a, n, m) && AllInBounds(b, n, m))
    ensures r.Failure? ==> r.error == IndexOutOfRange
    ensures r.Success? ==> IsSparseSum(r.value, a, b, n, m)
  {
    var acc := new real[n, m]((i, j) => 0.0);
    var k := 0;
    while k < |a|
      invariant 0 <= k <= |a|
      invariant AllInBounds(a[..k], n, m)
      invariant forall i, j :: 0 <= i < n && 0 <= j < m ==> acc[i, j] == LastValue(a[..k], i, j)
    {
      var e := a[k];
      if !(0 <= e.row < n && 0 <= e.col < m) {
        return Failure(IndexOutOfRange);
      }
      acc[e.row, e.col] := e.value;
      assert a[..k + 1][..k] == a[..k];
      k := k + 1;
    }
    assert a[..k] == a;
    k := 0;
    while k < |b|
      invariant 0 <= k <= |b|
      invariant AllInBounds(b[..k], n, m)
      invariant forall i, j :: 0 <= i < n && 0 <= j < m ==> acc[i, j] == LastValue(a, i, j) + SumAt(b[..k], i, j)
    {
      var e := b[k];
      if !(0 <= e.row < n && 0 <= e.col < m) {
        return Failure(IndexOutOfRange);
      }
      acc[e.row, e.col] := acc[e.row, e.col] + e.value;
      assert b[..k + 1][..k] == b[..k];
      k := k + 1;
    }
    assert b[..k] == b;
    var es := CollectNonZero(acc);
    ghost var cell := (i, j) => AddCell(a, b, i, j);
    assert forall i, j :: 0 <= i < n && 0 <= j < m ==> acc[i, j] == cell(i, j);
    assert forall k :: 0 <= k < |es| ==> es[k].value == cell(es[k].row, es[k].col);
    r := Success(es);
  }

  /** Multyply's accumulator on an n x bm grid: for each entry (i, k, v) of A
      and each column j < bm, v times the first B value at (k, j) is added to
      cell (i, j); then the non-zero cells are collected.  Writing to a row
      outside the grid raises IndexOutOfRangeException. */
  method AccumulateProduct(a: seq<Entry>, b: seq<Entry>, n: nat, bm: nat) returns (r: Result<seq<Entry>>)
    ensures r.Failure? <==> MulFaults(a, b, n, bm)
    ensures r.Failure? ==> r.error == IndexOutOfRange
    ensures r.Success? ==> IsSparseProduct(r.value, a, b, n, bm)
  {
    var acc := new real[n, bm]((i, j) => 0.0);
    var p := 0;
    while p < |a|
      invariant 0 <= p <= |a|
      invariant forall p', j :: 0 <= p' < p && 0 <= j < bm ==> !Faults(a[p'], b, n, j)
      invariant forall i, j :: 0 <= i < n && 0 <= j < bm ==> acc[i, j] == MulCell(a[..p], b, i, j)
    {
      var e := a[p];
      assert a[..p + 1][..p] == a[..p];
      var j := 0;
      while j < bm
        invariant 0 <= j <= bm
        invariant forall j' :: 0 <= j' < j ==> !Faults(e, b, n, j')
        invariant forall i, j' :: 0 <= i < n && 0 <= j' < bm ==>
          acc[i, j'] == MulCell(if j' < j then a[..p + 1] else a[..p], b, i, j')
      {
        var found := Lookup(b, e.col, j);
        if found.Some? {
          if !(0 <= e.row < n) {
            assert Faults(a[p], b, n, j);
            return Failure(IndexOutOfRange);
          }
          acc[e.row, j] := acc[e.row, j] + e.value * found.value;
        }
        j := j + 1;
      }
      p := p + 1;
    }
    assert a[..p] == a;
    var es := CollectNonZero(acc);
    ghost var cell := (i, j) => MulCell(a, b, i, j);
    assert forall i, j :: 0 <= i < n && 0 <= j < bm ==> acc[i, j] == cell(i, j);
    assert forall k :: 0 <= k < |es| ==> es[k].value == cell(es[k].row, es[k].col);
    r := Success(es);
  }
}
