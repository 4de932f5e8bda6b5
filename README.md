# Dense matrix engine: a verified model

This project models the core of a small dense-matrix library. It has two parts:

- the `ml::Matrix` container. A matrix owns a row-major buffer padded to whole 32-byte AVX registers. It offers bounds-checked element access and `fill`. Its copy constructor and assignment make deep copies. Its `+`, `-` and `*` operators check shapes first.
- the kernels those operators call. `simd_add` and `simd_subtract` work in place, eight lanes at a time and then one element at a time. `block_multiply` is cache-blocked over 32 x 32 x 32 tiles.

The Dafny files are:

- `row_major.dfy` (module `RowMajor`): the row-major offset `i * cols + j`. It proves the offset is in range, injective and onto.
- `kernels.dfy` (module `Kernels`): the vector kernels as in-place array methods over a shared two-loop body, and the tiled multiply as six nested loops, split at the tile boundary into `MultiplyTile` and `PartialDot`. The specifications are:
  - `Lanewise`: element-wise add or subtract.
  - `Sum`: the left-to-right partial dot product.
  - `NaiveProduct`: the naive triple-loop product.
  - `SumSplit`: a split lemma that carries the tiled-equals-naive proof.
- `matrix.dfy` (module `Matrices`): the `Matrix` class has fields `rows`, `cols` and `data: array<int>`. Its invariant `Valid()` says:
  - both dimensions are positive;
  - `data.Length == AlignedSize(rows, cols)`;
  - the padding holds zeros.

  `Contents()` is the ghost view of the logical elements and `Elem(r, c)` is the ghost view of one element. Two client methods replay the scenarios of tests/test_matrix.cpp through the `Matrix` API: `ConstructionScenario` adds the error paths for an index past the last row and a zero dimension, and `ArithmeticScenario` covers addition and multiplication. A third, `ShapeErrorScenario`, checks the operators' shape errors, which the tests do not exercise. A fourth, `CopyScenario`, shows that a copy is independent of its source and that self-assignment changes nothing.

Elements are exact integers, so every arithmetic claim holds over exact arithmetic.

### Deviations from the source

- The source declares `add_optimized`, `subtract_optimized`, `multiply_optimized`, `operator+=` and `operator-=` (src/matrix.hpp:40-41, 61-63) but defines none of them. The model gives them the meaning the tests require:
  - `add_optimized` is `simd_add(data, other.data, rows * cols)`, and `subtract_optimized` is the same with `simd_subtract`.
  - `+=` and `-=` first run the shape check of `validate_dimensions`.
  - `multiply_optimized` computes the product into a fresh matrix, then takes over its shape and buffer, so the column count becomes `other.cols`.
- As written, `operator+` and `operator-` apply the kernel to a fresh zero matrix (src/matrix.cpp:59-60, 66-67). That would return `other` (or `-other`), not `this + other`, and would contradict the tests. The model copies the receiver and then applies the in-place kernel.
- As written, `operator*` calls `multiply_optimized` on a fresh zero result (src/matrix.cpp:75-76). The model fills that fresh `rows x other.cols` result with `block_multiply(result, this, other, rows, other.cols, cols)`.
- The header declares the three binary operators `const`, but the definitions are not `const`. The model gives them no `modifies` clause, so neither operand can change.
- The padding is zero, not uninitialised. `std::make_unique<float[]>` value-initialises the buffer, and no operation writes past `rows * cols`. `Valid()` carries this as an invariant.
- The C++ exceptions become results. `invalid_argument` is split into `InvalidDimension`, `ShapeMismatch` and `DimensionMismatch` by its cause, and `out_of_range` becomes `IndexOutOfRange`.

## Model

| member | source | states |
|---|---|---|
| `RowMajor.Offset` | src/matrix.cpp:43 | the row-major offset of an in-range `(r, c)` is below `rows * cols`, so it addresses a logical element, never padding |
| `RowMajor.OffsetInjective` | src/matrix.cpp:43 | two in-range coordinates share an offset iff they are equal, so writing one element leaves every other element alone |
| `RowMajor.OffsetOnto` | src/matrix.cpp:43 | every offset below `rows * cols` is the offset of `(p / cols, p % cols)`, which is in range |
| `Kernels.Min` | src/optimizations.cpp:48-54 | `std::min` of two sizes is one of them and is no larger than either, so a clamped tile bound never passes the matrix edge |
| `Kernels.VectorEnd` | src/optimizations.cpp:11 | the vector loop stops at a multiple of 8 with fewer than 8 elements left, so the scalar remainder loop runs at most 7 times |
| `Kernels.Elementwise` | src/optimizations.cpp:7-39 | the shared body of both kernels: after the 8-lane loop and the remainder loop, `a[0..size)` is the lane-wise combination of the old `a` and `b`, and `a[size..)` is unchanged, even when `b` is `a` |
| `Kernels.SimdAdd` | src/optimizations.cpp:7-22 | `a[i] == old(a[i]) + old(b[i])` for every `i < size`; slots from `size` on are untouched; only `a` is written |
| `Kernels.SimdSubtract` | src/optimizations.cpp:24-39 | `a[i] == old(a[i]) - old(b[i])` for every `i < size`; slots from `size` on are untouched; only `a` is written |
| `Kernels.LanewiseAddCommutes` | src/matrix.hpp:34 | element-wise addition gives the same buffer whichever operand comes first |
| `Kernels.SubtractUndoesAdd` | src/matrix.hpp:34-35 | subtracting `b` after adding `b` gives back the original buffer |
| `Kernels.SumSplit` | src/optimizations.cpp:53-62 | a dot product over `[lo, hi)` is the sum of the parts over `[lo, mid)` and `[mid, hi)`, so each reduction index is counted exactly once across the k-tiles |
| `Kernels.NaiveProductAt` | src/optimizations.hpp:34-41 | entry `(i, j)` of the m x n product of an m x k and a k x n row-major matrix is the full dot product of row `i` and column `j` |
| `Kernels.ProductFromCells` | src/optimizations.cpp:47-64 | a buffer whose every cell holds its full dot product equals the naive product |
| `Kernels.PartialDot` | src/optimizations.cpp:58-61 | the local `sum` of one k-tile is the dot product of row `i` and column `j` over `[k0, kmax)`, reading only inside `a[0..m*k)` and `b[0..k*n)` |
| `Kernels.MultiplyTile` | src/optimizations.cpp:56-64 | each cell of the clamped tile gains its partial dot product over the k-tile; every other cell, and everything past `m*n`, keeps its value |
| `Kernels.BlockMultiply` | src/optimizations.cpp:41-68 | `result[0..m*n)` becomes the naive triple-sum product whatever it held before (it is zero-filled first); everything past `m*n` is unchanged; all accesses stay in range when m, n or k is not a multiple of 32 |
| `Kernels.TwoByTwoProduct` | tests/test_matrix.cpp:38-42 | `[[1,2],[3,4]] * [[5,6],[7,8]] == [[19,22],[43,50]]` |
| `Matrices.AlignedSize` | src/matrix.cpp:86-89 | the padded length is a multiple of 8 floats, holds all `rows * cols` elements, and has fewer than 8 pad slots, so it is the least such multiple |
| `Matrices.Matrix.Zeros` | src/matrix.cpp:12-14 | a fresh buffer of the padded length whose logical elements are all 0 |
| `Matrices.Matrix.Create` | src/matrix.cpp:7-15 | fails with `InvalidDimension` iff a dimension is 0; otherwise a fresh matrix of that shape whose every element is 0 |
| `Matrices.Matrix.Copy` | src/matrix.cpp:17-22 | same shape and the same logical elements in a freshly allocated buffer, so later writes to the copy cannot reach the source |
| `Matrices.Matrix.Assign` | src/matrix.cpp:24-35 | self-assignment changes nothing; otherwise the receiver takes `other`'s shape and logical elements and `other` is unchanged; the buffer is reallocated exactly when the shape differs |
| `Matrices.Matrix.Rows` | src/matrix.hpp:55 | returns the stored row count, which is positive |
| `Matrices.Matrix.Cols` | src/matrix.hpp:56 | returns the stored column count, which is positive |
| `Matrices.Matrix.At` | src/matrix.cpp:46-51 | `IndexOutOfRange` iff `r >= rows` or `c >= cols`; otherwise the logical element at `r * cols + c`, which is below `rows * cols` |
| `Matrices.Matrix.SetAt` | src/matrix.cpp:39-44 | the same bounds check, with nothing changed on failure; on success exactly the element at `r * cols + c` becomes `v` |
| `Matrices.Matrix.Fill` | src/matrix.cpp:53-55 | every logical element becomes `v`; the padding is untouched |
| `Matrices.Matrix.ValidateDimensions` | src/matrix.cpp:80-84 | passes iff rows and cols both match, otherwise `ShapeMismatch` |
| `Matrices.Matrix.AddOptimized` | src/matrix.hpp:61 | the logical elements become the element-wise sum with `other`'s |
| `Matrices.Matrix.SubtractOptimized` | src/matrix.hpp:62 | the logical elements become the element-wise difference with `other`'s |
| `Matrices.Matrix.AddAssign` | src/matrix.hpp:40 | `ShapeMismatch` iff the shapes differ, with nothing changed; otherwise the receiver becomes the element-wise sum in place |
| `Matrices.Matrix.SubtractAssign` | src/matrix.hpp:41 | `ShapeMismatch` iff the shapes differ, with nothing changed; otherwise the receiver becomes the element-wise difference in place |
| `Matrices.Matrix.Plus` | src/matrix.cpp:57-62 | `ShapeMismatch` iff the shapes differ; otherwise a fresh matrix of the same shape whose element `(i, j)` is the sum of the operands' elements; neither operand changes |
| `Matrices.Matrix.Minus` | src/matrix.cpp:64-69 | `ShapeMismatch` iff the shapes differ; otherwise a fresh matrix whose element `(i, j)` is the difference of the operands' elements; neither operand changes |
| `Matrices.Matrix.Times` | src/matrix.cpp:71-78 | `DimensionMismatch` iff `cols != other.rows`; otherwise a fresh `rows x other.cols` matrix whose element `(i, j)` is the dot product of row `i` and column `j`; neither operand changes |
| `Matrices.Matrix.MultiplyAssign` | src/matrix.hpp:63 | `DimensionMismatch` iff `cols != other.rows`, with nothing changed; otherwise the receiver becomes the product and its column count becomes `other.cols`; `other` is only read |
| `Matrices.ElementsOfLanewise` | src/matrix.hpp:34-35 | a buffer that is the element-wise sum or difference of two others has, element by element, the sum or difference of their elements |
| `Matrices.ElementsOfProduct` | src/matrix.hpp:36 | entry `(i, j)` of a product matrix is the dot product of row `i` of the left operand and column `j` of the right |
| `Matrices.TwoByTwoSum` | tests/test_matrix.cpp:30-35 | `[[1,2],[3,4]] + [[5,6],[7,8]] == [[6,8],[10,12]]` |
| `Matrices.SetTwoByTwo` | tests/test_matrix.cpp:23-28 | four writes through the bounds-checked `at` leave a 2 x 2 matrix holding the given elements in row-major order |
| `Matrices.ConstructionScenario` | tests/test_matrix.cpp:6-17 | a fresh 3 x 4 matrix reports 3 rows and 4 columns, and `at(i, j)` is 0 for all twelve in-range `(i, j)` |
| `Matrices.ArithmeticScenario` | tests/test_matrix.cpp:19-43 | through `operator+` and `operator*` on the matrices filled as in the test, the sum reads 6, 8, 10, 12 and the product reads 19, 22, 43, 50 through `at` |

## Left out

- Floating point: elements are unbounded integers. Rounding, the summation order's effect on rounding, and float tolerance are not modelled.
- AVX intrinsics and 32-byte address alignment: a register is a lane-wise parallel update of 8 array slots, and only the padded length of the buffer is modelled, not its address. `std::make_unique` does not in fact promise the alignment that `_mm256_load_ps` needs; that is outside the model.
- `size_t` arithmetic: `rows * cols * sizeof(float)` and the index products are unbounded here, so overflow is not modelled.
- The destructor and `unique_ptr` lifetime: Dafny's heap is garbage-collected.
- Matrices.Matrix.Assign, Matrices.Matrix.AddOptimized, Matrices.Matrix.SubtractOptimized, Matrices.Matrix.AddAssign and Matrices.Matrix.SubtractAssign: each requires that two distinct matrices do not share a buffer. The C++ ownership rules guarantee this; the Dafny heap does not express it.
- Matrices.Matrix.AddAssign: returns an outcome rather than a reference to the receiver, so chained `a += b += c` is not modelled.
- Matrices.Matrix.SubtractAssign: returns an outcome rather than a reference to the receiver, so chaining is not modelled.
- Matrices.Matrix.Assign: returns nothing, so the chained assignment `a = b = c` is not modelled.
- `data()`: the raw pointer accessor is the `data` field itself.
- `simd_multiply` (src/optimizations.hpp:31-32) is declared but has no body, so it is not modelled.
- src/neural.cpp, src/neural.hpp, src/bindings.cpp and app.py are not part of this model. They hold the network layer (random initialisation, transcendental activations, training stubs), the Python bindings and the UI.
