/** The dense matrix container: a rows x cols matrix owning a padded,
    row-major buffer, with bounds-checked access and the operators that
    validate shapes and then hand the buffers to the kernels. */
module Matrices {
  import opened RowMajor
  import opened Kernels

  /** The four failure kinds: invalid_argument for a zero dimension, for
      mismatched element-wise shapes and for mismatched product dimensions;
      out_of_range for element access. */
  datatype Error = InvalidDimension | IndexOutOfRange | ShapeMismatch | DimensionMismatch

  datatype Result<T> = Ok(value: T) | Err(error: Error)

  datatype Outcome = Pass | Fail(error: Error)

  /** sizeof(float) */
  const FloatBytes: nat := 4

  /** The AVX register width in bytes, to which the buffer is padded. */
  const AlignBytes: nat := 32

  /** get_aligned_size: the byte size of rows * cols floats rounded up to a
      multiple of 32, counted in floats. It is the least multiple of Lanes
      that holds every logical element, so the padding is under Lanes slots. */
  function AlignedSize(rows: nat, cols: nat): (size: nat)
    ensures size % Lanes == 0
    ensures rows * cols <= size < rows * cols + Lanes
  {
    var count := rows * cols;
    ((count * FloatBytes + AlignBytes - 1) / AlignBytes) * AlignBytes / FloatBytes
  }

  /** count copies of v. */
  function Constant(count: nat, v: int): (s: seq<int>)
    ensures |s| == count
  {
    seq(count, _ => v)
  }

  class Matrix {
    var rows: nat
    var cols: nat
    var data: array<int>

    /** Both dimensions are positive, the buffer has the padded length, and
        the padding holds zeros: the buffer is value-initialised when it is
        allocated and no operation writes past rows * cols. */
    ghost predicate Valid()
      reads this, data
    {
      && rows > 0 && cols > 0
      && data.Length == AlignedSize(rows, cols)
      && forall p :: rows * cols <= p < data.Length ==> data[p] == 0
    }

    /** The logical elements, row-major, without the padding. */
    ghost function Contents(): (s: seq<int>)
      reads this, data
      requires Valid()
      ensures |s| == rows * cols
    {
      data[..rows * cols]
    }

    /** Element (r, c) of the row-major view. */
    ghost function Elem(r: nat, c: nat): int
      reads this, data
      requires Valid() && r < rows && c < cols
    {
      data[Offset(r, c, rows, cols)]
    }

    /** Matrix(rows, cols) once its dimensions are known to be positive:
        allocate the padded buffer and zero the logical elements. */
    constructor Zeros(rows: nat, cols: nat)
      requires rows > 0 && cols > 0
      ensures Valid() && fresh(data)
      ensures this.rows == rows && this.cols == cols
      ensures Contents() == Constant(rows * cols, 0)
    {
      this.rows, this.cols := rows, cols;
      // std::make_unique<float[]> value-initialises every slot
      data := new int[AlignedSize(rows, cols)](_ => 0);
      new;
      // std::fill_n(data_, rows_ * cols_, 0.0f)
      forall p | 0 <= p < rows * cols {
        data[p] := 0;
      }
    }

    /** Matrix(rows, cols): rejects a zero dimension before allocating. */
    static method Create(rows: nat, cols: nat) returns (r: Result<Matrix>)
      ensures r.Err? <==> rows == 0 || cols == 0
      ensures r.Err? ==> r.error == InvalidDimension
      ensures r.Ok? ==> fresh(r.value) && fresh(r.value.data) && r.value.Valid()
      ensures r.Ok? ==> r.value.rows == rows && r.value.cols == cols
      ensures r.Ok? ==> forall i, j :: 0 <= i < rows && 0 <= j < cols ==> r.value.Elem(i, j) == 0
    {
      if rows == 0 || cols == 0 {
        return Err(InvalidDimension);
      }
      var m := new Matrix.Zeros(rows, cols);
      return Ok(m);
    }

    /** The copy constructor: same shape, the same logical elements, in a
        buffer of its own. */
    constructor Copy(other: Matrix)
      requires other.Valid()
      ensures Valid() && fresh(data)
      ensures rows == other.rows && cols == other.cols
      ensures Contents() == other.Contents()
    {
      rows, cols := other.rows, other.cols;
      data := new int[AlignedSize(other.rows, other.cols)](_ => 0);
      new;
      // std::memcpy of rows_ * cols_ floats
      forall p | 0 <= p < rows * cols {
        data[p] := other.data[p];
      }
    }

    /** operator=: a no-op on self-assignment; otherwise takes other's shape
        and logical elements, allocating a new buffer only when the shape
        changes. Distinct matrices own distinct buffers. */
    method Assign(other: Matrix)
      requires Valid() && other.Valid()
      requires this != other ==> data != other.data
      modifies this, data
      ensures Valid()
      ensures rows == old(other.rows) && cols == old(other.cols)
      ensures Contents() == old(other.Contents())
      ensures this == other ==> data == old(data) && data[..] == old(data[..])
      ensures old(rows) == old(other.rows) && old(cols) == old(other.cols) ==> data == old(data)
      ensures old(rows) != old(other.rows) || old(cols) != old(other.cols) ==> fresh(data)
      ensures this != other ==> other.rows == old(other.rows) && other.cols == old(other.cols)
      ensures this != other ==> other.data == old(other.data) && other.data[..] == old(other.data[..])
    {
      if this != other {
        if rows != other.rows || cols != other.cols {
          rows, cols := other.rows, other.cols;
          data := new int[AlignedSize(rows, cols)](_ => 0);
        }
        // std::memcpy of rows_ * cols_ floats
        forall p | 0 <= p < rows * cols {
          data[p] := other.data[p];
        }
      }
    }

    function Rows(): (r: nat)
      reads this, data
      requires Valid()
      ensures r == rows && r > 0
    {
      rows
    }

    function Cols(): (c: nat)
      reads this, data
      requires Valid()
      ensures c == cols && c > 0
    {
      cols
    }

    /** The read-only at(row, col): out_of_range exactly when an index is past
        its dimension; otherwise the logical element at offset row * cols + col. */
    function At(r: nat, c: nat): (res: Result<int>)
      reads this, data
      requires Valid()
      ensures res.Err? <==> r >= rows || c >= cols
      ensures res.Err? ==> res.error == IndexOutOfRange
      ensures res.Ok? ==> r * cols + c < rows * cols && res.value == Contents()[r * cols + c]
    {
      if r >= rows || c >= cols then Err(IndexOutOfRange)
      else Ok(data[Offset(r, c, rows, cols)])
    }

    /** The mutable at(row, col) followed by an assignment through the
        returned reference: the same bounds check, then exactly one logical
        element changes. */
    method SetAt(r: nat, c: nat, v: int) returns (o: Outcome)
      requires Valid()
      modifies data
      ensures Valid()
      ensures o.Fail? <==> r >= rows || c >= cols
      ensures o.Fail? ==> o.error == IndexOutOfRange && data[..] == old(data[..])
      ensures o.Pass? ==> Contents() == old(Contents())[Offset(r, c, rows, cols) := v]
    {
      if r >= rows || c >= cols {
        return Fail(IndexOutOfRange);
      }
      data[Offset(r, c, rows, cols)] := v;
      return Pass;
    }

    /** fill(value): every logical element becomes value; the padding is
        untouched. */
    method Fill(v: int)
      requires Valid()
      modifies data
      ensures Valid()
      ensures Contents() == Constant(rows * cols, v)
      ensures data[rows * cols..] == old(data[rows * cols..])
    {
      // std::fill_n(data_, rows_ * cols_, value)
      forall p | 0 <= p < rows * cols {
        data[p] := v;
      }
    }

    /** validate_dimensions: element-wise operands must have the same shape. */
    function ValidateDimensions(other: Matrix): (o: Outcome)
      reads this, other
      ensures o.Pass? <==> rows == other.rows && cols == other.cols
      ensures o.Fail? ==> o.error == ShapeMismatch
    {
      if rows != other.rows || cols != other.cols then Fail(ShapeMismatch) else Pass
    }

    /** add_optimized: simd_add over the logical elements of two matrices of
        the same shape. The operand may be the receiver itself. */
    method AddOptimized(other: Matrix)
      requires Valid() && other.Valid()
      requires rows == other.rows && cols == other.cols
      requires this != other ==> data != other.data
      modifies data
      ensures Valid()
      ensures Contents() == Lanewise(Add, old(Contents()), old(other.Contents()))
    {
      SimdAdd(data, other.data, rows * cols);
    }

    /** subtract_optimized: simd_subtract over the logical elements. */
    method SubtractOptimized(other: Matrix)
      requires Valid() && other.Valid()
      requires rows == other.rows && cols == other.cols
      requires this != other ==> data != other.data
      modifies data
      ensures Valid()
      ensures Contents() == Lanewise(Subtract, old(Contents()), old(other.Contents()))
    {
      SimdSubtract(data, other.data, rows * cols);
    }

    /** operator+=: the shape check, then add_optimized in place. */
    method AddAssign(other: Matrix) returns (o: Outcome)
      requires Valid() && other.Valid()
      requires this != other ==> data != other.data
      modifies data
      ensures Valid()
      ensures o.Fail? <==> rows != other.rows || cols != other.cols
      ensures o.Fail? ==> o.error == ShapeMismatch && data[..] == old(data[..])
      ensures o.Pass? ==> Contents() == Lanewise(Add, old(Contents()), old(other.Contents()))
    {
      o := ValidateDimensions(other);
      if o.Pass? {
        AddOptimized(other);
      }
    }

    /** operator-=: the shape check, then subtract_optimized in place. */
    method SubtractAssign(other: Matrix) returns (o: Outcome)
      requires Valid() && other.Valid()
      requires this != other ==> data != other.data
      modifies data
      ensures Valid()
      ensures o.Fail? <==> rows != other.rows || cols != other.cols
      ensures o.Fail? ==> o.error == ShapeMismatch && data[..] == old(data[..])
      ensures o.Pass? ==> Contents() == Lanewise(Subtract, old(Contents()), old(other.Contents()))
    {
      o := ValidateDimensions(other);
      if o.Pass? {
        SubtractOptimized(other);
      }
    }

    /** operator+: the shape check, then a copy of the receiver to which
        other is added; neither operand changes. */
    method Plus(other: Matrix) returns (r: Result<Matrix>)
      requires Valid() && other.Valid()
      ensures r.Err? <==> rows != other.rows || cols != other.cols
      ensures r.Err? ==> r.error == ShapeMismatch
      ensures r.Ok? ==> fresh(r.value) && fresh(r.value.data) && r.value.Valid()
      ensures r.Ok? ==> r.value.rows == rows && r.value.cols == cols
      ensures r.Ok? ==> r.value.Contents() == Lanewise(Add, Contents(), other.Contents())
      ensures r.Ok? ==> forall i, j :: 0 <= i < rows && 0 <= j < cols ==>
                          r.value.Elem(i, j) == Elem(i, j) + other.Elem(i, j)
    {
      var check := ValidateDimensions(other);
      if check.Fail? {
        return Err(check.error);
      }
      var result := new Matrix.Copy(this);
      result.AddOptimized(other);
      ElementsOfLanewise(result, this, other, Add);
      return Ok(result);
    }

    /** operator-: the shape check, then a copy of the receiver from which
        other is subtracted; neither operand changes. */
    method Minus(other: Matrix) returns (r: Result<Matrix>)
      requires Valid() && other.Valid()
      ensures r.Err? <==> rows != other.rows || cols != other.cols
      ensures r.Err? ==> r.error == ShapeMismatch
      ensures r.Ok? ==> fresh(r.value) && fresh(r.value.data) && r.value.Valid()
      ensures r.Ok? ==> r.value.rows == rows && r.value.cols == cols
      ensures r.Ok? ==> r.value.Contents() == Lanewise(Subtract, Contents(), other.Contents())
      ensures r.Ok? ==> forall i, j :: 0 <= i < rows && 0 <= j < cols ==>
                          r.value.Elem(i, j) == Elem(i, j) - other.Elem(i, j)
    {
      var check := ValidateDimensions(other);
      if check.Fail? {
        return Err(check.error);
      }
      var result := new Matrix.Copy(this);
      result.SubtractOptimized(other);
      ElementsOfLanewise(result, this, other, Subtract);
      return Ok(result);
    }

    /** operator*: cols must equal other.rows; the result is a fresh
        rows x other.cols matrix filled by block_multiply; neither operand
        changes. */
    method Times(other: Matrix) returns (r: Result<Matrix>)
      requires Valid() && other.Valid()
      ensures r.Err? <==> cols != other.rows
      ensures r.Err? ==> r.error == DimensionMismatch
      ensures r.Ok? ==> fresh(r.value) && fresh(r.value.data) && r.value.Valid()
      ensures r.Ok? ==> r.value.rows == rows && r.value.cols == other.cols
      ensures r.Ok? ==> r.value.Contents() == NaiveProduct(Contents(), other.Contents(), rows, other.cols, cols)
      ensures r.Ok? ==> forall i, j :: 0 <= i < rows && 0 <= j < other.cols ==>
                          r.value.Elem(i, j) == Sum(Contents(), other.Contents(), rows, other.cols, cols, i, j, 0, cols)
    {
      if cols != other.rows {
        return Err(DimensionMismatch);
      }
      var result := new Matrix.Zeros(rows, other.cols);
      BlockMultiply(result.data, data, other.data, rows, other.cols, cols);
      ElementsOfProduct(result, this, other);
      return Ok(result);
    }

    /** multiply_optimized: the product replaces the receiver, whose column
        count becomes other.cols; other is only read. */
    method MultiplyAssign(other: Matrix) returns (o: Outcome)
      requires Valid() && other.Valid()
      modifies this
      ensures Valid()
      ensures o.Fail? <==> old(cols) != old(other.rows)
      ensures o.Fail? ==> o.error == DimensionMismatch && rows == old(rows) && cols == old(cols) && data == old(data)
      ensures o.Pass? ==> rows == old(rows) && cols == old(other.cols) && fresh(data)
      ensures o.Pass? ==> Contents() == NaiveProduct(old(Contents()), old(other.Contents()), old(rows), old(other.cols), old(cols))
      ensures this != other ==> unchanged(other) && other.data[..] == old(other.data[..])
    {
      var r := Times(other);
      if r.Err? {
        return Fail(r.error);
      }
      rows, cols, data := r.value.rows, r.value.cols, r.value.data;
      return Pass;
    }
  }

  /** The element view of a buffer that is the element-wise combination of
      two others. */
  lemma ElementsOfLanewise(r: Matrix, x: Matrix, y: Matrix, op: Op)
    requires r.Valid() && x.Valid() && y.Valid()
    requires r.rows == x.rows == y.rows && r.cols == x.cols == y.cols
    requires r.Contents() == Lanewise(op, x.Contents(), y.Contents())
    ensures forall i, j :: 0 <= i < r.rows && 0 <= j < r.cols ==>
              r.Elem(i, j) == Apply(op, x.Elem(i, j), y.Elem(i, j))
  {
    forall i, j | 0 <= i < r.rows && 0 <= j < r.cols
      ensures r.Elem(i, j) == Apply(op, x.Elem(i, j), y.Elem(i, j))
    {
      var p := Offset(i, j, r.rows, r.cols);
      assert r.Contents()[p] == r.Elem(i, j);
      assert x.Contents()[p] == x.Elem(i, j);
      assert y.Contents()[p] == y.Elem(i, j);
    }
  }

  /** The element view of a buffer that is the product of two matrices:
      entry (i, j) is the dot product of row i of x and column j of y. */
  lemma ElementsOfProduct(r: Matrix, x: Matrix, y: Matrix)
    requires r.Valid() && x.Valid() && y.Valid()
    requires x.cols == y.rows && r.rows == x.rows && r.cols == y.cols
    requires r.Contents() == NaiveProduct(x.Contents(), y.Contents(), x.rows, y.cols, x.cols)
    ensures forall i, j :: 0 <= i < r.rows && 0 <= j < r.cols ==>
              r.Elem(i, j) == Sum(x.Contents(), y.Contents(), x.rows, y.cols, x.cols, i, j, 0, x.cols)
  {
    forall i, j | 0 <= i < r.rows && 0 <= j < r.cols
      ensures r.Elem(i, j) == Sum(x.Contents(), y.Contents(), x.rows, y.cols, x.cols, i, j, 0, x.cols)
    {
      NaiveProductAt(x.Contents(), y.Contents(), x.rows, y.cols, x.cols, i, j);
      assert r.Contents()[Offset(i, j, r.rows, r.cols)] == r.Elem(i, j);
    }
  }

  /** The 2 x 2 scenario of the repository's tests on the value level:
      [[1,2],[3,4]] + [[5,6],[7,8]] == [[6,8],[10,12]]. */
  lemma TwoByTwoSum()
    ensures Lanewise(Add, [1, 2, 3, 4], [5, 6, 7, 8]) == [6, 8, 10, 12]
  {
  }

  /** Sets the four elements of a 2 x 2 matrix through the bounds-checked
      accessor, row by row. */
  method SetTwoByTwo(m: Matrix, w: int, x: int, y: int, z: int)
    requires m.Valid() && m.rows == 2 && m.cols == 2
    modifies m.data
    ensures m.Valid() && m.Contents() == [w, x, y, z]
  {
    var o := m.SetAt(0, 0, w);
    o := m.SetAt(0, 1, x);
    o := m.SetAt(1, 0, y);
    ghost var before := m.Contents();
    o := m.SetAt(1, 1, z);
    assert m.Contents() == before[3 := z];
  }

  /** The construction scenario of the repository's tests: a fresh 3 x 4
      matrix has that shape and reads 0 everywhere; an index past the last
      row and a zero dimension are refused. */
  method ConstructionScenario() returns (z: Matrix)
    ensures z.Valid() && z.Rows() == 3 && z.Cols() == 4
    ensures forall i, j :: 0 <= i < 3 && 0 <= j < 4 ==> z.At(i, j) == Ok(0)
  {
    z := new Matrix.Zeros(3, 4);
    assert z.Rows() == 3 && z.Cols() == 4;
    assert forall i, j :: 0 <= i < 3 && 0 <= j < 4 ==> z.At(i, j) == Ok(0);
    assert z.At(3, 0) == Err(IndexOutOfRange);
    var bad := Matrix.Create(0, 4);
    assert bad == Err(InvalidDimension);
  }

  /** The four elements of a 2 x 2 matrix, read through the bounds-checked
      accessor. */
  lemma TwoByTwoElements(m: Matrix, w: int, x: int, y: int, z: int)
    requires m.Valid() && m.rows == 2 && m.cols == 2 && m.Contents() == [w, x, y, z]
    ensures m.At(0, 0) == Ok(w) && m.At(0, 1) == Ok(x) && m.At(1, 0) == Ok(y) && m.At(1, 1) == Ok(z)
  {
  }

  /** The arithmetic scenario of the repository's tests, through the matrix
      operators: [[1,2],[3,4]] + [[5,6],[7,8]] and their product. */
  method ArithmeticScenario() returns (c: Matrix, d: Matrix)
    ensures c.Valid() && c.rows == 2 && c.cols == 2
    ensures c.At(0, 0) == Ok(6) && c.At(0, 1) == Ok(8) && c.At(1, 0) == Ok(10) && c.At(1, 1) == Ok(12)
    ensures d.Valid() && d.rows == 2 && d.cols == 2
    ensures d.At(0, 0) == Ok(19) && d.At(0, 1) == Ok(22) && d.At(1, 0) == Ok(43) && d.At(1, 1) == Ok(50)
  {
    var a := new Matrix.Zeros(2, 2);
    var b := new Matrix.Zeros(2, 2);
    SetTwoByTwo(a, 1, 2, 3, 4);
    SetTwoByTwo(b, 5, 6, 7, 8);

    var sum := a.Plus(b);
    TwoByTwoSum();
    assert sum.Ok? && sum.value.Contents() == [6, 8, 10, 12];
    c := sum.value;
    TwoByTwoElements(c, 6, 8, 10, 12);

    var product := a.Times(b);
    TwoByTwoProduct();
    assert product.Ok? && product.value.Contents() == [19, 22, 43, 50];
    d := product.value;
    TwoByTwoElements(d, 19, 22, 43, 50);
  }

  /** The shape errors of the matrix operators: a 2 x 2 and a 3 x 2 matrix
      can be neither added nor multiplied in that order, but the 3 x 2 one
      times the 2 x 2 one is a 3 x 2 matrix. */
  method ShapeErrorScenario()
  {
    var a := new Matrix.Zeros(2, 2);
    var f := new Matrix.Zeros(3, 2);
    var g := a.Plus(f);
    assert g == Err(ShapeMismatch);
    var h := a.Times(f);
    assert h == Err(DimensionMismatch);
    var k := f.Times(a);
    assert k.Ok? && k.value.rows == 3 && k.value.cols == 2;
  }

  /** A client showing that a copy is independent of its source and that
      self-assignment changes nothing. */
  method CopyScenario()
  {
    var a := new Matrix.Zeros(2, 2);
    SetTwoByTwo(a, 1, 2, 3, 4);
    var e := new Matrix.Copy(a);
    var o := e.SetAt(0, 0, 99);
    assert e.At(0, 0) == Ok(99);
    assert a.At(0, 0) == Ok(1);
    a.Assign(a);
    assert a.At(1, 1) == Ok(4);
  }
}
