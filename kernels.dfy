/** The arithmetic kernels: stateless procedures over raw buffers that trust
    their caller for shapes and lengths. Buffers hold exact integers in place
    of single-precision floats. */
module Kernels {
  import opened RowMajor

  /** Floats per 256-bit AVX register: the vector kernels' step. */
  const Lanes: nat := 8

  /** Edge of the square tiles block_multiply walks in each dimension. */
  const BlockSize: nat := 32

  /** std::min over sizes: the smaller of the two, so a tile bound never
      passes the matrix edge. */
  function Min(x: nat, y: nat): (r: nat)
    ensures r <= x && r <= y
    ensures r == x || r == y
  {
    if x <= y then x else y
  }

  // ---------------------------------------------------------------------
  // Element-wise add and subtract
  // ---------------------------------------------------------------------

  datatype Op = Add | Subtract

  function Apply(op: Op, x: int, y: int): int
  {
    match op
    case Add => x + y
    case Subtract => x - y
  }

  /** The element-wise combination of two equally long buffers. */
  function Lanewise(op: Op, x: seq<int>, y: seq<int>): (r: seq<int>)
    requires |x| == |y|
    ensures |r| == |x|
  {
    seq(|x|, p requires 0 <= p < |x| => Apply(op, x[p], y[p]))
  }

  /** Element-wise addition does not depend on the order of its operands. */
  lemma LanewiseAddCommutes(x: seq<int>, y: seq<int>)
    requires |x| == |y|
    ensures Lanewise(Add, x, y) == Lanewise(Add, y, x)
  {
  }

  /** Subtracting what was added gives back the original buffer. */
  lemma SubtractUndoesAdd(x: seq<int>, y: seq<int>)
    requires |x| == |y|
    ensures Lanewise(Subtract, Lanewise(Add, x, y), y) == x
  {
  }

  /** Where the vector loop `for (; i + 7 < size; i += 8)` stops: a whole
      number of registers, leaving fewer than Lanes elements to the scalar
      remainder loop. */
  function VectorEnd(size: nat): (v: nat)
    ensures v % Lanes == 0
    ensures v <= size < v + Lanes
  {
    size - size % Lanes
  }

  /** The loop shared by simd_add and simd_subtract: whole registers first,
      then the remainder one element at a time. Only a[0..size) changes; the
      source buffer b may be the destination itself. */
  method Elementwise(op: Op, a: array<int>, b: array<int>, size: nat)
    requires size <= a.Length && size <= b.Length
    modifies a
    ensures a[..size] == Lanewise(op, old(a[..size]), old(b[..size]))
    ensures a[size..] == old(a[size..])
  {
    var i: nat := 0;
    while i + 7 < size
      invariant i % Lanes == 0 && i <= VectorEnd(size)
      invariant forall p :: 0 <= p < i ==> a[p] == Apply(op, old(a[p]), old(b[p]))
      invariant forall p :: i <= p < a.Length ==> a[p] == old(a[p])
      invariant forall p :: i <= p < b.Length ==> b[p] == old(b[p])
    {
      // one register: load both operands, combine all lanes, store
      forall p | i <= p < i + Lanes {
        a[p] := Apply(op, a[p], b[p]);
      }
      i := i + Lanes;
    }
    assert i == VectorEnd(size);
    while i < size
      invariant VectorEnd(size) <= i <= size
      invariant forall p :: 0 <= p < i ==> a[p] == Apply(op, old(a[p]), old(b[p]))
      invariant forall p :: i <= p < a.Length ==> a[p] == old(a[p])
      invariant forall p :: i <= p < b.Length ==> b[p] == old(b[p])
    {
      a[i] := Apply(op, a[i], b[i]);
      i := i + 1;
    }
    assert forall p :: 0 <= p < size ==> a[..size][p] == Lanewise(op, old(a[..size]), old(b[..size]))[p];
  }

  /** a[i] += b[i] for every i < size; nothing past size is touched. */
  method SimdAdd(a: array<int>, b: array<int>, size: nat)
    requires size <= a.Length && size <= b.Length
    modifies a
    ensures forall p :: 0 <= p < size ==> a[p] == old(a[p]) + old(b[p])
    ensures forall p :: size <= p < a.Length ==> a[p] == old(a[p])
    ensures a[..size] == Lanewise(Add, old(a[..size]), old(b[..size]))
  {
    Elementwise(Add, a, b, size);
    assert forall p :: 0 <= p < size ==> a[p] == a[..size][p];
    assert forall p :: size <= p < a.Length ==> a[p] == a[size..][p - size];
  }

  /** a[i] -= b[i] for every i < size; nothing past size is touched. */
  method SimdSubtract(a: array<int>, b: array<int>, size: nat)
    requires size <= a.Length && size <= b.Length
    modifies a
    ensures forall p :: 0 <= p < size ==> a[p] == old(a[p]) - old(b[p])
    ensures forall p :: size <= p < a.Length ==> a[p] == old(a[p])
    ensures a[..size] == Lanewise(Subtract, old(a[..size]), old(b[..size]))
  {
    Elementwise(Subtract, a, b, size);
    assert forall p :: 0 <= p < size ==> a[p] == a[..size][p];
    assert forall p :: size <= p < a.Length ==> a[p] == a[size..][p - size];
  }

  // ---------------------------------------------------------------------
  // Blocked multiply
  // ---------------------------------------------------------------------

  /** a is an m x k and b a k x n row-major matrix. */
  predicate Conforms(a: seq<int>, b: seq<int>, m: nat, n: nat, k: nat)
  {
    |a| == m * k && |b| == k * n
  }

  /** The partial dot product of row i of a and column j of b over the
      reduction indices [lo, hi), accumulated left to right. */
  function Sum(a: seq<int>, b: seq<int>, m: nat, n: nat, k: nat, i: nat, j: nat, lo: nat, hi: nat): int
    requires Conforms(a, b, m, n, k) && i < m && j < n && lo <= hi <= k
    decreases hi
  {
    if lo == hi then 0
    else Sum(a, b, m, n, k, i, j, lo, hi - 1) + a[Offset(i, hi - 1, m, k)] * b[Offset(hi - 1, j, k, n)]
  }

  /** A reduction range splits at any midpoint: each reduction index
      contributes to exactly one of the two halves. */
  lemma {:induction false} SumSplit(a: seq<int>, b: seq<int>, m: nat, n: nat, k: nat, i: nat, j: nat,
                                    lo: nat, mid: nat, hi: nat)
    requires Conforms(a, b, m, n, k) && i < m && j < n && lo <= mid <= hi <= k
    ensures Sum(a, b, m, n, k, i, j, lo, hi)
         == Sum(a, b, m, n, k, i, j, lo, mid) + Sum(a, b, m, n, k, i, j, mid, hi)
    decreases hi
  {
    if mid < hi {
      SumSplit(a, b, m, n, k, i, j, lo, mid, hi - 1);
    }
  }

  /** The naive triple loop's m x n product, row-major. */
  function NaiveProduct(a: seq<int>, b: seq<int>, m: nat, n: nat, k: nat): (r: seq<int>)
    requires Conforms(a, b, m, n, k)
    ensures |r| == m * n
  {
    seq(m * n, p requires 0 <= p < m * n =>
      OffsetOnto(p, m, n);
      Sum(a, b, m, n, k, p / n, p % n, 0, k))
  }

  /** Entry (i, j) of the product is the full dot product of row i and column j. */
  lemma NaiveProductAt(a: seq<int>, b: seq<int>, m: nat, n: nat, k: nat, i: nat, j: nat)
    requires Conforms(a, b, m, n, k) && i < m && j < n
    ensures NaiveProduct(a, b, m, n, k)[Offset(i, j, m, n)] == Sum(a, b, m, n, k, i, j, 0, k)
  {
    var p := Offset(i, j, m, n);
    OffsetOnto(p, m, n);
    OffsetInjective(i, j, p / n, p % n, m, n);
  }

  /** A row-major buffer whose every cell holds the full dot product of its
      row and column is the product. */
  lemma ProductFromCells(r: seq<int>, a: seq<int>, b: seq<int>, m: nat, n: nat, k: nat)
    requires Conforms(a, b, m, n, k) && |r| == m * n
    requires forall i, j :: 0 <= i < m && 0 <= j < n ==> r[Offset(i, j, m, n)] == Sum(a, b, m, n, k, i, j, 0, k)
    ensures r == NaiveProduct(a, b, m, n, k)
  {
    var q := NaiveProduct(a, b, m, n, k);
    forall p | 0 <= p < m * n
      ensures r[p] == q[p]
    {
      OffsetOnto(p, m, n);
      NaiveProductAt(a, b, m, n, k, p / n, p % n);
    }
  }

  /** The four dot products of the 2 x 2 scenario. */
  lemma TwoByTwoDotProducts(a: seq<int>, b: seq<int>)
    requires a == [1, 2, 3, 4] && b == [5, 6, 7, 8]
    ensures Conforms(a, b, 2, 2, 2)
    ensures Sum(a, b, 2, 2, 2, 0, 0, 0, 2) == 19 && Sum(a, b, 2, 2, 2, 0, 1, 0, 2) == 22
    ensures Sum(a, b, 2, 2, 2, 1, 0, 0, 2) == 43 && Sum(a, b, 2, 2, 2, 1, 1, 0, 2) == 50
  {
  }

  /** [[1,2],[3,4]] * [[5,6],[7,8]] == [[19,22],[43,50]]. */
  lemma TwoByTwoProduct()
    ensures NaiveProduct([1, 2, 3, 4], [5, 6, 7, 8], 2, 2, 2) == [19, 22, 43, 50]
  {
    var a, b := [1, 2, 3, 4], [5, 6, 7, 8];
    TwoByTwoDotProducts(a, b);
    var r := NaiveProduct(a, b, 2, 2, 2);
    NaiveProductAt(a, b, 2, 2, 2, 0, 0);
    NaiveProductAt(a, b, 2, 2, 2, 0, 1);
    NaiveProductAt(a, b, 2, 2, 2, 1, 0);
    NaiveProductAt(a, b, 2, 2, 2, 1, 1);
  }

  /** The innermost loop of block_multiply: the local `sum` over one k-tile. */
  method PartialDot(a: array<int>, b: array<int>, m: nat, n: nat, k: nat, i: nat, j: nat,
                    k0: nat, kmax: nat) returns (sum: int)
    requires m * k <= a.Length && k * n <= b.Length
    requires i < m && j < n && k0 <= kmax <= k
    ensures sum == Sum(a[..m * k], b[..k * n], m, n, k, i, j, k0, kmax)
  {
    sum := 0;
    var k1 := k0;
    while k1 < kmax
      invariant k0 <= k1 <= kmax
      invariant sum == Sum(a[..m * k], b[..k * n], m, n, k, i, j, k0, k1)
    {
      sum := sum + a[Offset(i, k1, m, k)] * b[Offset(k1, j, k, n)];
      k1 := k1 + 1;
    }
  }

  /** The body of the k0 loop of block_multiply: every cell of the tile
      [i0, imax) x [j0, jmax) gains its partial dot product over [k0, kmax);
      every other cell of result is left as it was. */
  method MultiplyTile(result: array<int>, a: array<int>, b: array<int>, m: nat, n: nat, k: nat,
                      i0: nat, imax: nat, j0: nat, jmax: nat, k0: nat, kmax: nat)
    requires result != a && result != b
    requires m * n <= result.Length && m * k <= a.Length && k * n <= b.Length
    requires i0 <= imax <= m && j0 <= jmax <= n && k0 <= kmax <= k
    modifies result
    ensures forall i, j :: 0 <= i < m && 0 <= j < n ==>
      result[Offset(i, j, m, n)] == old(result[Offset(i, j, m, n)]) +
        (if i0 <= i < imax && j0 <= j < jmax then Sum(a[..m * k], b[..k * n], m, n, k, i, j, k0, kmax) else 0)
    ensures forall p :: m * n <= p < result.Length ==> result[p] == old(result[p])
  {
    var i := i0;
    while i < imax
      invariant i0 <= i <= imax
      invariant forall i', j' :: 0 <= i' < m && 0 <= j' < n ==>
        result[Offset(i', j', m, n)] == old(result[Offset(i', j', m, n)]) +
          (if i0 <= i' < i && j0 <= j' < jmax then Sum(a[..m * k], b[..k * n], m, n, k, i', j', k0, kmax) else 0)
      invariant forall p :: m * n <= p < result.Length ==> result[p] == old(result[p])
    {
      var j := j0;
      while j < jmax
        invariant j0 <= j <= jmax
        invariant forall i', j' :: 0 <= i' < m && 0 <= j' < n ==>
          result[Offset(i', j', m, n)] == old(result[Offset(i', j', m, n)]) +
            (if (i0 <= i' < i && j0 <= j' < jmax) || (i' == i && j0 <= j' < j)
             then Sum(a[..m * k], b[..k * n], m, n, k, i', j', k0, kmax) else 0)
        invariant forall p :: m * n <= p < result.Length ==> result[p] == old(result[p])
      {
        var sum := PartialDot(a, b, m, n, k, i, j, k0, kmax);
        ghost var before := result[..];
        result[Offset(i, j, m, n)] := result[Offset(i, j, m, n)] + sum;
        forall i', j' | 0 <= i' < m && 0 <= j' < n && (i' != i || j' != j)
          ensures result[Offset(i', j', m, n)] == before[Offset(i', j', m, n)]
        {
          OffsetInjective(i, j, i', j', m, n);
        }
        j := j + 1;
      }
      i := i + 1;
    }
  }

  /** block_multiply: result[0..m*n) becomes the product of the m x k matrix a
      and the k x n matrix b, whatever result held before; the clamped tiles
      cover every (i, j, k1) exactly once, so the tiled traversal yields the
      naive triple sum. Nothing past m*n is written. */
  method BlockMultiply(result: array<int>, a: array<int>, b: array<int>, m: nat, n: nat, k: nat)
    requires result != a && result != b
    requires m * n <= result.Length && m * k <= a.Length && k * n <= b.Length
    modifies result
    ensures result[..m * n] == NaiveProduct(a[..m * k], b[..k * n], m, n, k)
    ensures result[m * n..] == old(result[m * n..])
  {
    ghost var A, B := a[..m * k], b[..k * n];
    // std::fill_n(result, m * n, 0)
    forall p | 0 <= p < m * n {
      result[p] := 0;
    }
    var i0 := 0;
    while i0 < m
      invariant forall i, j :: 0 <= i < m && 0 <= j < n ==>
        result[Offset(i, j, m, n)] == Sum(A, B, m, n, k, i, j, 0, if i < i0 then k else 0)
      invariant forall p :: m * n <= p < result.Length ==> result[p] == old(result[p])
    {
      var imax := Min(i0 + BlockSize, m);
      var j0 := 0;
      while j0 < n
        invariant forall i, j :: 0 <= i < m && 0 <= j < n ==>
          result[Offset(i, j, m, n)] ==
            Sum(A, B, m, n, k, i, j, 0, if i < i0 || (i < imax && j < j0) then k else 0)
        invariant forall p :: m * n <= p < result.Length ==> result[p] == old(result[p])
      {
        var jmax := Min(j0 + BlockSize, n);
        var k0 := 0;
        while k0 < k
          invariant forall i, j :: 0 <= i < m && 0 <= j < n ==>
            result[Offset(i, j, m, n)] ==
              Sum(A, B, m, n, k, i, j, 0,
                  if i < i0 || (i < imax && j < j0) then k
                  else if i < imax && j < jmax then Min(k0, k)
                  else 0)
          invariant forall p :: m * n <= p < result.Length ==> result[p] == old(result[p])
        {
          var kmax := Min(k0 + BlockSize, k);
          ghost var before := result[..];
          MultiplyTile(result, a, b, m, n, k, i0, imax, j0, jmax, k0, kmax);
          assert a[..m * k] == A && b[..k * n] == B;
          forall i, j | 0 <= i < m && 0 <= j < n
            ensures result[Offset(i, j, m, n)] ==
              Sum(A, B, m, n, k, i, j, 0,
                  if i < i0 || (i < imax && j < j0) then k
                  else if i < imax && j < jmax then kmax
                  else 0)
          {
            if i0 <= i < imax && j0 <= j < jmax {
              SumSplit(A, B, m, n, k, i, j, 0, k0, kmax);
            }
          }
          k0 := k0 + BlockSize;
        }
        j0 := j0 + BlockSize;
      }
      i0 := i0 + BlockSize;
    }
    ghost var done := result[..m * n];
    forall i, j | 0 <= i < m && 0 <= j < n
      ensures done[Offset(i, j, m, n)] == Sum(A, B, m, n, k, i, j, 0, k)
    {
    }
    ProductFromCells(done, A, B, m, n, k);
    assert a[..m * k] == A && b[..k * n] == B;
    assert forall p :: 0 <= p < result.Length - m * n ==> result[m * n..][p] == result[m * n + p];
  }
}
