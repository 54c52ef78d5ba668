/** The `modificaMatrice` examples of the battleship exercise: the same
    nested row-major loop over a fixed-width matrix (`example0.c`,
    `example1_fixed_dimensions.c`, `example2_variable_rows.c`), an array
    of row pointers (`example3_pointer_to_pointer.c`) and a flattened
    buffer (`example4_flattened_array.c`), plus the initialisers of
    `example0.c`. A matrix is a sequence of rows; a function modifying
    one in place returns the modified copy. */
module Matrices {

  type Matrix = seq<seq<int>>

  /** At least `rows` rows, each at least `cols` cells wide. */
  predicate HasShape(m: Matrix, rows: nat, cols: nat) {
    rows <= |m| && forall i :: 0 <= i < rows ==> cols <= |m[i]|
  }

  /** Exactly `rows` rows of exactly `cols` cells: a C `int[rows][cols]`. */
  predicate IsGrid(m: Matrix, rows: nat, cols: nat) {
    |m| == rows && forall i :: 0 <= i < rows ==> |m[i]| == cols
  }

  predicate SameShape(a: Matrix, b: Matrix) {
    |a| == |b| && forall i :: 0 <= i < |a| ==> |a[i]| == |b[i]|
  }

  /** The nested loop shared by the functions: rows `0..rows`, in each
      the columns `0..cols`, cell `(i, j)` replaced by `f` of its value
      and position. Cells outside the `rows` by `cols` corner keep their
      values. */
  method UpdateCells(m: Matrix, rows: nat, cols: nat, f: (int, int, int) -> int) returns (r: Matrix)
    requires HasShape(m, rows, cols)
    ensures SameShape(r, m)
    ensures forall i, j :: 0 <= i < rows && 0 <= j < cols ==> r[i][j] == f(m[i][j], i, j)
    ensures forall i, j :: 0 <= i < |m| && 0 <= j < |m[i]| && !(i < rows && j < cols) ==> r[i][j] == m[i][j]
  {
    r := m;
    var i := 0;
    while i < rows
      invariant 0 <= i <= rows
      invariant SameShape(r, m)
      invariant forall a, b :: 0 <= a < i && 0 <= b < cols ==> r[a][b] == f(m[a][b], a, b)
      invariant forall a, b :: 0 <= a < |m| && 0 <= b < |m[a]| && !(a < i && b < cols) ==> r[a][b] == m[a][b]
    {
      var j := 0;
      while j < cols
        invariant 0 <= j <= cols
        invariant SameShape(r, m)
        invariant forall a, b :: 0 <= a < i && 0 <= b < cols ==> r[a][b] == f(m[a][b], a, b)
        invariant forall b :: 0 <= b < j ==> r[i][b] == f(m[i][b], i, b)
        invariant forall a, b :: 0 <= a < |m| && 0 <= b < |m[a]| && !(a < i && b < cols) && !(a == i && b < j) ==> r[a][b] == m[a][b]
      {
        r := r[i := r[i][j := f(r[i][j], i, j)]];
        j := j + 1;
      }
      i := i + 1;
    }
  }

  // ---------------------------------------------------------------------
  // example0.c: `int matrice[][3]`, `righe` rows doubled
  // ---------------------------------------------------------------------

  const Colonne0 := 3

  /** Doubles every cell of the first `righe` rows; the caller's matrix
      must have that many rows of width 3. */
  method DoubleRows(m: Matrix, righe: nat) returns (r: Matrix)
    requires righe <= |m| && forall i :: 0 <= i < |m| ==> |m[i]| == Colonne0
    ensures SameShape(r, m)
    ensures forall i, j :: 0 <= i < righe && 0 <= j < Colonne0 ==> r[i][j] == 2 * m[i][j]
    ensures forall i :: righe <= i < |m| ==> r[i] == m[i]
    ensures righe == 0 ==> r == m
  {
    r := UpdateCells(m, righe, Colonne0, (x: int, i: int, j: int) => 2 * x);
    assert forall i :: righe <= i < |m| ==> r[i] == m[i] by {
      forall i | righe <= i < |m|
        ensures r[i] == m[i]
      {
        assert forall j :: 0 <= j < |m[i]| ==> r[i][j] == m[i][j];
      }
    }
  }

  // ---------------------------------------------------------------------
  // example1_fixed_dimensions.c: `int matrice[3][4]`, doubled
  // ---------------------------------------------------------------------

  const Righe := 3
  const Colonne := 4

  /** Doubles every cell of a 3 by 4 matrix. */
  method DoubleFixed(m: Matrix) returns (r: Matrix)
    requires IsGrid(m, Righe, Colonne)
    ensures IsGrid(r, Righe, Colonne)
    ensures forall i, j :: 0 <= i < Righe && 0 <= j < Colonne ==> r[i][j] == 2 * m[i][j]
  {
    r := UpdateCells(m, Righe, Colonne, (x: int, i: int, j: int) => 2 * x);
  }

  /** The 3 by 4 matrix of the samples, 1 to 12 row by row. */
  function Sample(): (m: Matrix)
    ensures IsGrid(m, Righe, Colonne)
  {
    [[1, 2, 3, 4], [5, 6, 7, 8], [9, 10, 11, 12]]
  }

  lemma SampleCells()
    ensures forall i, j :: 0 <= i < Righe && 0 <= j < Colonne ==> Sample()[i][j] == 4 * i + j + 1
  {
    var s := Sample();
    assert s[0] == [1, 2, 3, 4] && s[1] == [5, 6, 7, 8] && s[2] == [9, 10, 11, 12];
  }

  /** `main` of example 1: cell `(i, j)` goes from `4i + j + 1` to twice
      that. */
  method DoubleFixedProgram() returns (before: Matrix, after: Matrix)
    ensures before == Sample()
    ensures IsGrid(after, Righe, Colonne)
    ensures forall i, j :: 0 <= i < Righe && 0 <= j < Colonne ==> after[i][j] == 2 * (4 * i + j + 1)
  {
    before := Sample();
    SampleCells();
    after := DoubleFixed(before);
  }

  // ---------------------------------------------------------------------
  // example2_variable_rows.c: `int matrice[][4]`, row index added
  // ---------------------------------------------------------------------

  /** Adds its row index to every cell of the first `righe` rows; row 0
      is unchanged. */
  method AddRowIndex(m: Matrix, righe: nat) returns (r: Matrix)
    requires righe <= |m| && forall i :: 0 <= i < |m| ==> |m[i]| == Colonne
    ensures SameShape(r, m)
    ensures forall i, j :: 0 <= i < righe && 0 <= j < Colonne ==> r[i][j] == m[i][j] + i
    ensures forall i :: righe <= i < |m| ==> r[i] == m[i]
    ensures |m| > 0 ==> r[0] == m[0]
  {
    r := UpdateCells(m, righe, Colonne, (x: int, i: int, j: int) => x + i);
    forall i | 0 <= i < |m| && (i == 0 || righe <= i)
      ensures r[i] == m[i]
    {
      assert forall j :: 0 <= j < |m[i]| ==> r[i][j] == m[i][j];
    }
  }

  /** `main` of example 2: cell `(i, j)` becomes `5i + j + 1`. */
  method AddRowIndexProgram() returns (before: Matrix, after: Matrix)
    ensures before == Sample()
    ensures IsGrid(after, Righe, Colonne)
    ensures forall i, j :: 0 <= i < Righe && 0 <= j < Colonne ==> after[i][j] == 5 * i + j + 1
  {
    before := Sample();
    SampleCells();
    after := AddRowIndex(before, Righe);
  }

  // ---------------------------------------------------------------------
  // Row-major flattening
  // ---------------------------------------------------------------------

  /** `a * b` by repeated addition, which keeps the index arithmetic
      below linear; `MulIsProduct` ties it to `*`. */
  function Mul(a: nat, b: nat): nat
    decreases a
  {
    if a == 0 then 0 else Mul(a - 1, b) + b
  }

  lemma {:induction false} MulIsProduct(a: nat, b: nat)
    ensures Mul(a, b) == a * b
    decreases a
  {
    if a > 0 {
      MulIsProduct(a - 1, b);
      assert (a - 1) * b + b == a * b;
    }
  }

  lemma {:induction false} MulMono(a: nat, b: nat, c: nat)
    requires a <= b
    ensures Mul(a, c) <= Mul(b, c)
    decreases b - a
  {
    if a < b {
      MulMono(a + 1, b, c);
    }
  }

  /** The position of cell `(i, j)` in the row-major layout of a matrix
      `cols` cells wide. */
  function FlatIndex(i: nat, j: nat, cols: nat): nat {
    Mul(i, cols) + j
  }

  /** A cell of row `i` lies before the start of any later row `k`. */
  lemma FlatIndexBefore(i: nat, j: nat, k: nat, cols: nat)
    requires i < k && j < cols
    ensures FlatIndex(i, j, cols) < FlatIndex(k, 0, cols)
  {
    MulMono(i + 1, k, cols);
  }

  /** Distinct cells have distinct positions. */
  lemma FlatIndexInjective(i: nat, j: nat, k: nat, l: nat, cols: nat)
    requires j < cols && l < cols
    requires FlatIndex(i, j, cols) == FlatIndex(k, l, cols)
    ensures i == k && j == l
  {
    if i < k {
      FlatIndexBefore(i, j, k, cols);
    } else if k < i {
      FlatIndexBefore(k, l, i, cols);
    }
  }

  /** Every position of a `rows * cols` buffer is the position of a
      cell. */
  lemma {:induction false} FlatIndexOnto(p: nat, rows: nat, cols: nat) returns (i: nat, j: nat)
    requires p < Mul(rows, cols)
    ensures i < rows && j < cols && FlatIndex(i, j, cols) == p
    decreases rows
  {
    if p < Mul(rows - 1, cols) {
      i, j := FlatIndexOnto(p, rows - 1, cols);
    } else {
      i, j := rows - 1, p - Mul(rows - 1, cols);
    }
  }

  /** The rows of a matrix laid end to end. */
  function Flatten(m: Matrix): (flat: seq<int>)
    decreases |m|
  {
    if m == [] then [] else Flatten(m[..|m| - 1]) + m[|m| - 1]
  }

  lemma {:induction false} FlattenLength(m: Matrix, rows: nat, cols: nat)
    requires IsGrid(m, rows, cols)
    ensures |Flatten(m)| == Mul(rows, cols)
    decreases rows
  {
    if rows > 0 {
      FlattenLength(m[..rows - 1], rows - 1, cols);
    }
  }

  /** Cell `(i, j)` of a grid sits at `FlatIndex(i, j, cols)` of its
      flattening: the cast `(int *)miaMatrice` of `example4`. */
  lemma {:induction false} FlattenIndex(m: Matrix, rows: nat, cols: nat, i: nat, j: nat)
    requires IsGrid(m, rows, cols) && i < rows && j < cols
    ensures FlatIndex(i, j, cols) < |Flatten(m)|
    ensures Flatten(m)[FlatIndex(i, j, cols)] == m[i][j]
    decreases rows
  {
    var init := m[..rows - 1];
    FlattenLength(init, rows - 1, cols);
    if i < rows - 1 {
      FlattenIndex(init, rows - 1, cols, i, j);
      FlatIndexBefore(i, j, rows - 1, cols);
    }
  }

  /** Row `i` of a buffer laid out row-major. */
  function RowOf(flat: seq<int>, rows: nat, cols: nat, i: nat): (row: seq<int>)
    requires |flat| == Mul(rows, cols) && i < rows
    ensures |row| == cols
    ensures forall j :: 0 <= j < cols ==> FlatIndex(i, j, cols) < |flat| && row[j] == flat[FlatIndex(i, j, cols)]
  {
    MulMono(i + 1, rows, cols);
    flat[FlatIndex(i, 0, cols)..FlatIndex(i, 0, cols) + cols]
  }

  /** A buffer read back as a matrix, as `stampaMatrice` of `example4`
      reads it. */
  function Reshape(flat: seq<int>, rows: nat, cols: nat): (m: Matrix)
    requires |flat| == Mul(rows, cols)
    ensures IsGrid(m, rows, cols)
    ensures forall i, j :: 0 <= i < rows && 0 <= j < cols ==>
              FlatIndex(i, j, cols) < |flat| && m[i][j] == flat[FlatIndex(i, j, cols)]
  {
    var m := seq(rows, i requires 0 <= i < rows => RowOf(flat, rows, cols, i));
    RowsCells(flat, rows, cols, m);
    m
  }

  /** A matrix made of the rows of a buffer holds the buffer's cells. */
  lemma RowsCells(flat: seq<int>, rows: nat, cols: nat, m: Matrix)
    requires |flat| == Mul(rows, cols)
    requires |m| == rows
    requires forall i :: 0 <= i < rows ==> m[i] == RowOf(flat, rows, cols, i)
    ensures IsGrid(m, rows, cols)
    ensures forall i, j :: 0 <= i < rows && 0 <= j < cols ==>
              FlatIndex(i, j, cols) < |flat| && m[i][j] == flat[FlatIndex(i, j, cols)]
  {
    forall i, j | 0 <= i < rows && 0 <= j < cols
      ensures FlatIndex(i, j, cols) < |flat| && m[i][j] == flat[FlatIndex(i, j, cols)]
    {
      var row := RowOf(flat, rows, cols, i);
      assert m[i] == row;
    }
  }

  /** Flattening and reading back gives the matrix again. */
  lemma ReshapeFlatten(m: Matrix, rows: nat, cols: nat)
    requires IsGrid(m, rows, cols)
    ensures |Flatten(m)| == Mul(rows, cols)
    ensures Reshape(Flatten(m), rows, cols) == m
  {
    FlattenLength(m, rows, cols);
    var r := Reshape(Flatten(m), rows, cols);
    forall i | 0 <= i < rows
      ensures r[i] == m[i]
    {
      forall j | 0 <= j < cols
        ensures r[i][j] == m[i][j]
      {
        FlattenIndex(m, rows, cols, i, j);
      }
    }
  }

  /** Reading a buffer as a matrix and flattening it gives the buffer
      again. */
  lemma FlattenReshape(flat: seq<int>, rows: nat, cols: nat)
    requires |flat| == Mul(rows, cols)
    ensures Flatten(Reshape(flat, rows, cols)) == flat
  {
    var m := Reshape(flat, rows, cols);
    FlattenLength(m, rows, cols);
    forall p | 0 <= p < |flat|
      ensures Flatten(m)[p] == flat[p]
    {
      var i, j := FlatIndexOnto(p, rows, cols);
      FlattenIndex(m, rows, cols, i, j);
    }
  }

  // ---------------------------------------------------------------------
  // example4_flattened_array.c: `int *matrice`, index sum added
  // ---------------------------------------------------------------------

  /** Adds `i + j` to the cell at `i * colonne + j`, row by row; the
      buffer must hold at least `righe * colonne` cells, and cells past
      them keep their values. */
  method AddIndexSumFlat(buf: seq<int>, righe: nat, colonne: nat) returns (r: seq<int>)
    requires Mul(righe, colonne) <= |buf|
    ensures |r| == |buf|
    ensures forall i, j :: 0 <= i < righe && 0 <= j < colonne ==>
              FlatIndex(i, j, colonne) < Mul(righe, colonne) &&
              r[FlatIndex(i, j, colonne)] == buf[FlatIndex(i, j, colonne)] + i + j
    ensures forall p :: Mul(righe, colonne) <= p < |buf| ==> r[p] == buf[p]
  {
    r := buf;
    var i := 0;
    while i < righe
      invariant 0 <= i <= righe
      invariant |r| == |buf|
      invariant FlatIndex(i, 0, colonne) <= Mul(righe, colonne)
      invariant forall a, b :: 0 <= a < i && 0 <= b < colonne ==>
                  FlatIndex(a, b, colonne) < FlatIndex(i, 0, colonne) &&
                  r[FlatIndex(a, b, colonne)] == buf[FlatIndex(a, b, colonne)] + a + b
      invariant forall p :: FlatIndex(i, 0, colonne) <= p < |buf| ==> r[p] == buf[p]
    {
      MulMono(i + 1, righe, colonne);
      var j := 0;
      while j < colonne
        invariant 0 <= j <= colonne
        invariant |r| == |buf|
        invariant FlatIndex(i, j, colonne) <= Mul(i + 1, colonne) <= Mul(righe, colonne)
        invariant forall a, b :: 0 <= a < i && 0 <= b < colonne ==>
                    FlatIndex(a, b, colonne) < FlatIndex(i, 0, colonne) &&
                    r[FlatIndex(a, b, colonne)] == buf[FlatIndex(a, b, colonne)] + a + b
        invariant forall b :: 0 <= b < j ==> r[FlatIndex(i, b, colonne)] == buf[FlatIndex(i, b, colonne)] + i + b
        invariant forall p :: FlatIndex(i, j, colonne) <= p < |buf| ==> r[p] == buf[p]
      {
        var q := FlatIndex(i, j, colonne);
        r := r[q := r[q] + (i + j)];
        j := j + 1;
      }
      forall a, b | 0 <= a < i + 1 && 0 <= b < colonne
        ensures FlatIndex(a, b, colonne) < FlatIndex(i + 1, 0, colonne)
      {
        FlatIndexBefore(a, b, i + 1, colonne);
      }
      i := i + 1;
    }
  }

  /** `main` of example 4: the sample is passed as a flat buffer and
      printed back as a matrix, where cell `(i, j)` now reads
      `5i + 2j + 1`. */
  method AddIndexSumProgram() returns (before: Matrix, after: Matrix)
    ensures before == Sample()
    ensures IsGrid(after, Righe, Colonne)
    ensures forall i, j :: 0 <= i < Righe && 0 <= j < Colonne ==> after[i][j] == 5 * i + 2 * j + 1
  {
    var miaMatrice := Sample();
    ReshapeFlatten(miaMatrice, Righe, Colonne);
    var buf := Flatten(miaMatrice);
    before := Reshape(buf, Righe, Colonne);
    var modified := AddIndexSumFlat(buf, Righe, Colonne);
    after := Reshape(modified, Righe, Colonne);
    SampleCells();
    forall i, j | 0 <= i < Righe && 0 <= j < Colonne
      ensures after[i][j] == 5 * i + 2 * j + 1
    {
      FlattenIndex(miaMatrice, Righe, Colonne, i, j);
    }
  }

  // ---------------------------------------------------------------------
  // example0.c: initialisers
  // ---------------------------------------------------------------------

  /** A braced initialiser `{{...}, {...}}` for `int m[rows][cols]`:
      rows and cells it leaves out are zero. */
  function Initialise(init: seq<seq<int>>, rows: nat, cols: nat): (m: Matrix)
    requires |init| <= rows && forall i :: 0 <= i < |init| ==> |init[i]| <= cols
    ensures IsGrid(m, rows, cols)
  {
    seq(rows, i requires 0 <= i < rows =>
      seq(cols, j requires 0 <= j < cols =>
        if i < |init| && j < |init[i]| then init[i][j] else 0))
  }

  /** A flat initialiser `{a, b, c, ...}` fills the matrix row by row;
      cells it leaves out are zero. */
  function InitialiseFlat(init: seq<int>, rows: nat, cols: nat): (m: Matrix)
    requires |init| <= Mul(rows, cols)
    ensures IsGrid(m, rows, cols)
  {
    Reshape(init + seq(Mul(rows, cols) - |init|, _ => 0), rows, cols)
  }

  /** The braced initialiser keeps what it is given and zero-fills the
      rest; a full one is the matrix it spells out. */
  lemma InitialiseKeepsGiven(init: seq<seq<int>>, rows: nat, cols: nat)
    requires |init| <= rows && forall i :: 0 <= i < |init| ==> |init[i]| <= cols
    ensures forall i, j :: 0 <= i < |init| && 0 <= j < |init[i]| ==> Initialise(init, rows, cols)[i][j] == init[i][j]
    ensures forall i, j :: 0 <= i < rows && 0 <= j < cols && !(i < |init| && j < |init[i]|) ==>
              Initialise(init, rows, cols)[i][j] == 0
    ensures IsGrid(init, rows, cols) ==> Initialise(init, rows, cols) == init
  {
    if IsGrid(init, rows, cols) {
      var m := Initialise(init, rows, cols);
      forall i | 0 <= i < rows
        ensures m[i] == init[i]
      {
      }
    }
  }

  /** The flat initialiser puts element `FlatIndex(i, j, cols)` in cell
      `(i, j)`, and a full flat initialiser flattens back to itself. */
  lemma InitialiseFlatRowMajor(init: seq<int>, rows: nat, cols: nat)
    requires |init| <= Mul(rows, cols)
    ensures forall i, j :: 0 <= i < rows && 0 <= j < cols ==>
              InitialiseFlat(init, rows, cols)[i][j]
                == if FlatIndex(i, j, cols) < |init| then init[FlatIndex(i, j, cols)] else 0
    ensures |init| == Mul(rows, cols) ==> Flatten(InitialiseFlat(init, rows, cols)) == init
  {
    var padded := init + seq(Mul(rows, cols) - |init|, _ => 0);
    var m := InitialiseFlat(init, rows, cols);
    assert m == Reshape(padded, rows, cols);
    forall i, j | 0 <= i < rows && 0 <= j < cols
      ensures m[i][j] == if FlatIndex(i, j, cols) < |init| then init[FlatIndex(i, j, cols)] else 0
    {
      assert m[i][j] == padded[FlatIndex(i, j, cols)];
    }
    if |init| == Mul(rows, cols) {
      assert padded == init;
      FlattenReshape(init, rows, cols);
    }
  }

  /** `int matrice1[3][3] = {{1, 2, 3}, {4, 5, 6}, {7, 8, 9}}`. */
  method FullInitialiser() returns (m: Matrix)
    ensures m == [[1, 2, 3], [4, 5, 6], [7, 8, 9]]
  {
    var full := [[1, 2, 3], [4, 5, 6], [7, 8, 9]];
    InitialiseKeepsGiven(full, 3, 3);
    m := Initialise(full, 3, 3);
  }

  /** `int matrice2[5][3] = {0}`: all zero. */
  method ZeroInitialiser() returns (m: Matrix)
    ensures IsGrid(m, 5, 3) && forall i, j :: 0 <= i < 5 && 0 <= j < 3 ==> m[i][j] == 0
  {
    InitialiseKeepsGiven([[0]], 5, 3);
    m := Initialise([[0]], 5, 3);
  }

  /** `int matrice3[3][3] = {{10, 11}, {20}, {30, 31, 32}}`: missing
      cells zero. */
  method PartialInitialiser() returns (m: Matrix)
    ensures m == [[10, 11, 0], [20, 0, 0], [30, 31, 32]]
  {
    var partial := [[10, 11], [20], [30, 31, 32]];
    InitialiseKeepsGiven(partial, 3, 3);
    m := Initialise(partial, 3, 3);
    assert m[0] == [10, 11, 0] && m[1] == [20, 0, 0] && m[2] == [30, 31, 32];
  }

  /** `int matrice4[3][3] = {10, 11, ..., 18}`: cell `(i, j)` is
      `10 + 3i + j`. */
  method FlatInitialiser() returns (m: Matrix)
    ensures IsGrid(m, 3, 3) && forall i, j :: 0 <= i < 3 && 0 <= j < 3 ==> m[i][j] == 10 + 3 * i + j
  {
    var flat := [10, 11, 12, 13, 14, 15, 16, 17, 18];
    assert forall k :: 0 <= k < 9 ==> flat[k] == 10 + k;
    MulIsProduct(3, 3);
    InitialiseFlatRowMajor(flat, 3, 3);
    m := InitialiseFlat(flat, 3, 3);
    forall i, j | 0 <= i < 3 && 0 <= j < 3
      ensures m[i][j] == 10 + 3 * i + j
    {
      MulIsProduct(i, 3);
    }
  }

  // ---------------------------------------------------------------------
  // example3_pointer_to_pointer.c: `int **matrice`, column index
  // subtracted
  // ---------------------------------------------------------------------

  /** The rows `malloc` has handed out, by address. */
  type Heap = map<nat, seq<int>>

  /** How many of the row pointers hold address `p`. */
  function PointerCount(ptrs: seq<nat>, p: nat): nat
    decreases |ptrs|
  {
    if ptrs == [] then 0
    else PointerCount(ptrs[..|ptrs| - 1], p) + (if ptrs[|ptrs| - 1] == p then 1 else 0)
  }

  lemma PointerCountStep(ptrs: seq<nat>, i: nat, p: nat)
    requires i < |ptrs|
    ensures PointerCount(ptrs[..i + 1], p) == PointerCount(ptrs[..i], p) + (if ptrs[i] == p then 1 else 0)
  {
    assert ptrs[..i + 1][..i] == ptrs[..i];
  }

  /** No two row pointers share a row, as when each row has its own
      `malloc`. */
  predicate DistinctRows(ptrs: seq<nat>) {
    forall i, k :: 0 <= i < k < |ptrs| ==> ptrs[i] != ptrs[k]
  }

  lemma {:induction false} DistinctCountsOnce(ptrs: seq<nat>, i: nat)
    requires DistinctRows(ptrs) && i < |ptrs|
    ensures PointerCount(ptrs, ptrs[i]) == 1
    decreases |ptrs|
  {
    var last := |ptrs| - 1;
    var init := ptrs[..last];
    if i < last {
      DistinctCountsOnce(init, i);
    } else {
      NotPresentCountsZero(init, ptrs[i]);
    }
  }

  lemma {:induction false} NotPresentCountsZero(ptrs: seq<nat>, p: nat)
    requires p !in ptrs
    ensures PointerCount(ptrs, p) == 0
    decreases |ptrs|
  {
    if ptrs != [] {
      NotPresentCountsZero(ptrs[..|ptrs| - 1], p);
    }
  }

  /** Each of the first `righe` row pointers leads to a row of at least
      `colonne` cells. */
  predicate RowsAllocated(heap: Heap, ptrs: seq<nat>, righe: nat, colonne: nat) {
    righe <= |ptrs| && forall i :: 0 <= i < righe ==> ptrs[i] in heap && colonne <= |heap[ptrs[i]]|
  }

  /** `modificaMatrice(matrice, righe, colonne)` through row pointers: every
      visit of a row subtracts the column index from its first `colonne`
      cells. A row reached through `n` of the pointers loses `n` times the
      column index; rows no pointer reaches are untouched. */
  method SubtractColumnIndex(heap: Heap, ptrs: seq<nat>, righe: nat, colonne: nat) returns (h: Heap)
    requires RowsAllocated(heap, ptrs, righe, colonne)
    ensures h.Keys == heap.Keys
    ensures forall p :: p in heap ==> |h[p]| == |heap[p]|
    ensures forall p, j :: p in heap && 0 <= j < |heap[p]| ==>
              h[p][j] == heap[p][j] - (if j < colonne then Mul(PointerCount(ptrs[..righe], p), j) else 0)
  {
    h := heap;
    var i := 0;
    while i < righe
      invariant 0 <= i <= righe
      invariant h.Keys == heap.Keys
      invariant forall p :: p in heap ==> |h[p]| == |heap[p]|
      invariant forall p, b :: p in heap && 0 <= b < |heap[p]| ==>
                  h[p][b] == heap[p][b] - (if b < colonne then Mul(PointerCount(ptrs[..i], p), b) else 0)
    {
      var q := ptrs[i];
      var j := 0;
      while j < colonne
        invariant 0 <= j <= colonne
        invariant h.Keys == heap.Keys
        invariant forall p :: p in heap ==> |h[p]| == |heap[p]|
        invariant forall p, b :: p in heap && 0 <= b < |heap[p]| ==>
                    h[p][b] == heap[p][b] - (if b < colonne then Mul(PointerCount(ptrs[..i], p) + (if p == q && b < j then 1 else 0), b) else 0)
      {
        h := h[q := h[q][j := h[q][j] - j]];
        j := j + 1;
      }
      forall p | p in heap
        ensures PointerCount(ptrs[..i + 1], p) == PointerCount(ptrs[..i], p) + (if p == q then 1 else 0)
      {
        PointerCountStep(ptrs, i, p);
      }
      i := i + 1;
    }
  }

  /** With distinct rows, as `main` allocates them, cell `(i, j)` loses
      exactly `j`; column 0 is unchanged. */
  lemma SubtractColumnIndexDistinct(heap: Heap, ptrs: seq<nat>, righe: nat, colonne: nat, h: Heap)
    requires RowsAllocated(heap, ptrs, righe, colonne) && DistinctRows(ptrs[..righe])
    requires h.Keys == heap.Keys
    requires forall p :: p in heap ==> |h[p]| == |heap[p]|
    requires forall p, j :: p in heap && 0 <= j < |heap[p]| ==>
               h[p][j] == heap[p][j] - (if j < colonne then Mul(PointerCount(ptrs[..righe], p), j) else 0)
    ensures forall i, j :: 0 <= i < righe && 0 <= j < colonne ==> h[ptrs[i]][j] == heap[ptrs[i]][j] - j
    ensures forall i :: 0 <= i < righe && colonne > 0 ==> h[ptrs[i]][0] == heap[ptrs[i]][0]
  {
    forall i, j | 0 <= i < righe && 0 <= j < colonne
      ensures h[ptrs[i]][j] == heap[ptrs[i]][j] - j
    {
      DistinctCountsOnce(ptrs[..righe], i);
    }
  }

  /** Two pointers to one row subtract the column index from it twice. */
  method AliasedRowsSubtractTwice() returns (h: Heap)
    ensures 0 in h && |h[0]| == 2 && h[0][1] == 3
  {
    var heap: Heap := map[0 := [5, 5]];
    h := SubtractColumnIndex(heap, [0, 0], 2, 2);
    assert [0, 0][..2] == [0, 0];
    assert PointerCount([0, 0], 0) == 2 by {
      assert [0, 0][..1] == [0];
      assert [0][..0] == [];
    }
  }

  /** `main` of example 3: one `malloc` per row, at addresses `0..righe`,
      and cell `(i, j)` set to `i * colonne + j + 1`. */
  method AllocateRows(righe: nat, colonne: nat) returns (heap: Heap, ptrs: seq<nat>)
    ensures |ptrs| == righe && DistinctRows(ptrs)
    ensures RowsAllocated(heap, ptrs, righe, colonne)
    ensures forall i :: 0 <= i < righe ==> |heap[ptrs[i]]| == colonne
    ensures forall i, j :: 0 <= i < righe && 0 <= j < colonne ==> heap[ptrs[i]][j] == FlatIndex(i, j, colonne) + 1
  {
    heap := map[];
    ptrs := [];
    var i := 0;
    while i < righe
      invariant 0 <= i <= righe
      invariant ptrs == seq(i, k => k)
      invariant forall k: nat :: k in heap <==> k < i
      invariant forall k :: 0 <= k < i ==> |heap[k]| == colonne
      invariant forall k, j :: 0 <= k < i && 0 <= j < colonne ==> heap[k][j] == FlatIndex(k, j, colonne) + 1
    {
      var row := seq(colonne, j requires 0 <= j < colonne => FlatIndex(i, j, colonne) + 1);
      heap := heap[i := row];
      ptrs := ptrs + [i];
      i := i + 1;
    }
  }

  /** `main` of example 3 on its 3 by 4 matrix: afterwards every cell of
      row `i` holds `4i + 1`. */
  method SubtractColumnIndexProgram() returns (rows: Matrix)
    ensures IsGrid(rows, 3, 4)
    ensures forall i, j :: 0 <= i < 3 && 0 <= j < 4 ==> rows[i][j] == 4 * i + 1
  {
    var heap, ptrs := AllocateRows(3, 4);
    var h := SubtractColumnIndex(heap, ptrs, 3, 4);
    assert ptrs[..3] == ptrs;
    SubtractColumnIndexDistinct(heap, ptrs, 3, 4, h);
    rows := seq(3, i requires 0 <= i < 3 => h[ptrs[i]]);
    forall i, j | 0 <= i < 3 && 0 <= j < 4
      ensures rows[i][j] == 4 * i + 1
    {
      MulIsProduct(i, 4);
    }
  }
}
