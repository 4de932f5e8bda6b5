/** Row-major layout shared by the matrix container and the multiply kernel:
    element (i, j) of a rows x cols matrix lives at offset i * cols + j. */
module RowMajor {

  /** x <= y implies x * c <= y * c, for naturals. */
  lemma MulMonotone(x: nat, y: nat, c: nat)
    requires x <= y
    ensures x * c <= y * c
  {
    var d: nat := y - x;
    assert y * c == x * c + d * c;
  }

  /** The row-major offset of (i, j); it always addresses one of the
      rows * cols logical elements. */
  function Offset(i: nat, j: nat, rows: nat, cols: nat): (p: nat)
    requires i < rows && j < cols
    ensures p < rows * cols
  {
    OffsetBound(i, j, rows, cols);
    i * cols + j
  }

  lemma OffsetBound(i: nat, j: nat, rows: nat, cols: nat)
    requires i < rows && j < cols
    ensures i * cols + j < rows * cols
  {
    MulMonotone(i + 1, rows, cols);
    assert (i + 1) * cols == i * cols + cols;
  }

  /** Distinct in-range coordinates never share an offset. */
  lemma OffsetInjective(i: nat, j: nat, i': nat, j': nat, rows: nat, cols: nat)
    requires i < rows && j < cols && i' < rows && j' < cols
    ensures Offset(i, j, rows, cols) == Offset(i', j', rows, cols) <==> i == i' && j == j'
  {
    if i < i' {
      MulMonotone(i + 1, i', cols);
      assert (i + 1) * cols == i * cols + cols;
    } else if i' < i {
      MulMonotone(i' + 1, i, cols);
      assert (i' + 1) * cols == i' * cols + cols;
    }
  }

  /** Every offset below rows * cols is the offset of exactly the coordinates
      obtained by dividing it by the row length. */
  lemma OffsetOnto(p: nat, rows: nat, cols: nat)
    requires p < rows * cols
    ensures cols > 0 && p / cols < rows && p % cols < cols
    ensures Offset(p / cols, p % cols, rows, cols) == p
  {
    var q := p / cols;
    if q >= rows {
      MulMonotone(rows, q, cols);
      assert false;
    }
  }
}
