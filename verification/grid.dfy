/** The board of the competitive Sudoku game and its regions.

    A board is an N x N grid with N = m * n; it is cut into N blocks of m rows
    and n columns.  Cell value 0 means empty, 1..N a placed number.  Every
    region (a row, a column, a block) is a rectangle of the grid, and every
    loop of the engine that visits a region reads it row by row, left to
    right: `RectVals` is that reading. */
module Grid {

  /** Block shape: `m` rows and `n` columns per block. */
  datatype Shape = Shape(m: nat, n: nat)
  {
    predicate Valid()
    {
      m > 0 && n > 0
    }

    function N(): nat
    {
      m * n
    }
  }

  type Board = seq<seq<int>>

  predicate WellFormed(g: Shape, b: Board)
  {
    && g.Valid()
    && |b| == g.N()
    && forall i :: 0 <= i < |b| ==> |b[i]| == g.N()
  }

  predicate InGrid(g: Shape, i: int, j: int)
  {
    0 <= i < g.N() && 0 <= j < g.N()
  }

  /** `board.put(i, j, v)`. */
  function Put(g: Shape, b: Board, i: int, j: int, v: int): (r: Board)
    requires WellFormed(g, b) && InGrid(g, i, j)
    ensures WellFormed(g, r)
    ensures r[i][j] == v
    ensures forall k, l :: InGrid(g, k, l) && (k != i || l != j) ==> r[k][l] == b[k][l]
  {
    b[i := b[i][j := v]]
  }

  /** Putting back the value that was there restores the board. */
  lemma PutBack(g: Shape, b: Board, i: int, j: int, v: int)
    requires WellFormed(g, b) && InGrid(g, i, j)
    ensures Put(g, Put(g, b, i, j, v), i, j, b[i][j]) == b
  {
    var r := Put(g, Put(g, b, i, j, v), i, j, b[i][j]);
    assert forall k :: 0 <= k < |b| ==> r[k] == b[k];
  }

  // ---------------------------------------------------------------------
  // Rectangles and the row-major reading of a region

  /** The half-open rectangle of rows `top..bottom` and columns `left..right`. */
  datatype Rect = Rect(top: int, bottom: int, left: int, right: int)

  predicate InRect(r: Rect, i: int, j: int)
  {
    r.top <= i < r.bottom && r.left <= j < r.right
  }

  predicate Fits(g: Shape, r: Rect)
  {
    0 <= r.top <= r.bottom <= g.N() && 0 <= r.left <= r.right <= g.N()
  }

  function RowRect(g: Shape, i: int): Rect
  {
    Rect(i, i + 1, 0, g.N())
  }

  function ColRect(g: Shape, j: int): Rect
  {
    Rect(0, g.N(), j, j + 1)
  }

  /** The values of the cells of `r`, row after row, each row left to right. */
  function RectVals(g: Shape, b: Board, r: Rect): seq<int>
    requires WellFormed(g, b) && Fits(g, r)
    decreases r.bottom - r.top
  {
    if r.bottom <= r.top then []
    else RectVals(g, b, r.(bottom := r.bottom - 1)) + b[r.bottom - 1][r.left..r.right]
  }

  /** Every cell of `r` is read. */
  lemma {:induction false} CellInRectVals(g: Shape, b: Board, r: Rect, i: int, j: int)
    requires WellFormed(g, b) && Fits(g, r) && InRect(r, i, j)
    ensures b[i][j] in RectVals(g, b, r)
    decreases r.bottom - r.top
  {
    var r' := r.(bottom := r.bottom - 1);
    var row := b[r.bottom - 1][r.left..r.right];
    assert RectVals(g, b, r) == RectVals(g, b, r') + row;
    if i == r.bottom - 1 {
      assert row[j - r.left] == b[i][j];
    } else {
      CellInRectVals(g, b, r', i, j);
    }
  }

  /** Only cells of `r` are read. */
  lemma {:induction false} RectValsFromCells(g: Shape, b: Board, r: Rect, x: int)
    requires WellFormed(g, b) && Fits(g, r) && x in RectVals(g, b, r)
    ensures exists i, j :: InRect(r, i, j) && b[i][j] == x
    decreases r.bottom - r.top
  {
    var r' := r.(bottom := r.bottom - 1);
    var row := b[r.bottom - 1][r.left..r.right];
    assert RectVals(g, b, r) == RectVals(g, b, r') + row;
    if x in RectVals(g, b, r') {
      RectValsFromCells(g, b, r', x);
      var i, j :| InRect(r', i, j) && b[i][j] == x;
      assert InRect(r, i, j);
    } else {
      var k :| 0 <= k < |row| && row[k] == x;
      assert InRect(r, r.bottom - 1, r.left + k) && b[r.bottom - 1][r.left + k] == x;
    }
  }

  /** A value is read from a rectangle iff some cell of the rectangle holds it. */
  lemma InRectVals(g: Shape, b: Board, r: Rect, x: int)
    requires WellFormed(g, b) && Fits(g, r)
    ensures x in RectVals(g, b, r) <==> exists i, j :: InRect(r, i, j) && b[i][j] == x
  {
    if x in RectVals(g, b, r) {
      RectValsFromCells(g, b, r, x);
    }
    if exists i, j :: InRect(r, i, j) && b[i][j] == x {
      var i, j :| InRect(r, i, j) && b[i][j] == x;
      CellInRectVals(g, b, r, i, j);
    }
  }

  /** A rectangle's reading does not see a `Put` outside the rectangle. */
  lemma {:induction false} RectValsPutOutside(g: Shape, b: Board, r: Rect, i: int, j: int, v: int)
    requires WellFormed(g, b) && Fits(g, r) && InGrid(g, i, j)
    requires !InRect(r, i, j)
    ensures RectVals(g, Put(g, b, i, j, v), r) == RectVals(g, b, r)
    decreases r.bottom - r.top
  {
    if r.bottom > r.top {
      RectValsPutOutside(g, b, r.(bottom := r.bottom - 1), i, j, v);
      var b' := Put(g, b, i, j, v);
      var k := r.bottom - 1;
      assert b'[k][r.left..r.right] == b[k][r.left..r.right] by {
        if k == i {
          assert !(r.left <= j < r.right);
        }
      }
    }
  }

  // ---------------------------------------------------------------------
  // Counting empty cells

  /** 1 for an empty cell, 0 for a filled one: Python's `value == 0` used as a number. */
  function Empty(x: int): nat
  {
    if x == 0 then 1 else 0
  }

  /** Number of empty cells in a reading. */
  function CountZeros(s: seq<int>): nat
  {
    if s == [] then 0 else CountZeros(s[..|s| - 1]) + Empty(s[|s| - 1])
  }

  lemma {:induction false} CountZerosNone(s: seq<int>)
    ensures CountZeros(s) == 0 <==> 0 !in s
  {
    if s != [] {
      CountZerosNone(s[..|s| - 1]);
      assert s == s[..|s| - 1] + [s[|s| - 1]];
    }
  }

  lemma {:induction false} CountZerosConcat(a: seq<int>, b: seq<int>)
    ensures CountZeros(a + b) == CountZeros(a) + CountZeros(b)
    decreases |b|
  {
    if b == [] {
      assert a + b == a;
    } else {
      var b' := b[..|b| - 1];
      assert (a + b)[..|a + b| - 1] == a + b';
      assert (a + b)[|a + b| - 1] == b[|b| - 1];
      CountZerosConcat(a, b');
    }
  }

  /** Overwriting one entry changes the count by the emptiness it adds and removes. */
  lemma {:induction false} CountZerosUpdate(s: seq<int>, p: int, v: int)
    requires 0 <= p < |s|
    ensures CountZeros(s[p := v]) == CountZeros(s) - Empty(s[p]) + Empty(v)
  {
    var t := s[p := v];
    if p == |s| - 1 {
      assert t[..|t| - 1] == s[..|s| - 1];
    } else {
      assert t[..|t| - 1] == s[..|s| - 1][p := v];
      CountZerosUpdate(s[..|s| - 1], p, v);
    }
  }

  /** Number of empty cells in a rectangle, read as the engine reads it. */
  function EmptyIn(g: Shape, b: Board, r: Rect): nat
    requires WellFormed(g, b) && Fits(g, r)
  {
    CountZeros(RectVals(g, b, r))
  }

  /** A rectangle has no empty cell left iff none of its cells holds 0. */
  lemma EmptyInZero(g: Shape, b: Board, r: Rect)
    requires WellFormed(g, b) && Fits(g, r)
    ensures EmptyIn(g, b, r) == 0 <==> forall i, j :: InRect(r, i, j) ==> b[i][j] != 0
  {
    CountZerosNone(RectVals(g, b, r));
    InRectVals(g, b, r, 0);
  }

  /** Splitting off a rectangle's last row splits its empty count. */
  lemma EmptyInLastRow(g: Shape, b: Board, r: Rect)
    requires WellFormed(g, b) && Fits(g, r) && r.top < r.bottom
    ensures EmptyIn(g, b, r)
         == EmptyIn(g, b, r.(bottom := r.bottom - 1)) + CountZeros(b[r.bottom - 1][r.left..r.right])
  {
    var r' := r.(bottom := r.bottom - 1);
    assert RectVals(g, b, r) == RectVals(g, b, r') + b[r.bottom - 1][r.left..r.right];
    CountZerosConcat(RectVals(g, b, r'), b[r.bottom - 1][r.left..r.right]);
  }

  /** `Put` inside a rectangle shifts its empty count by the change in emptiness of the cell. */
  lemma {:induction false} EmptyInPutInside(g: Shape, b: Board, r: Rect, i: int, j: int, v: int)
    requires WellFormed(g, b) && Fits(g, r) && InGrid(g, i, j) && InRect(r, i, j)
    ensures EmptyIn(g, Put(g, b, i, j, v), r) == EmptyIn(g, b, r) + Empty(v) - Empty(b[i][j])
    decreases r.bottom - r.top
  {
    var r' := r.(bottom := r.bottom - 1);
    if r.bottom - 1 == i {
      EmptyInPutBottomRow(g, b, r, i, j, v);
    } else {
      EmptyInLastRow(g, b, r);
      EmptyInLastRow(g, Put(g, b, i, j, v), r);
      PutSliceOtherRow(g, b, i, j, v, r.bottom - 1, r.left, r.right);
      EmptyInPutInside(g, b, r', i, j, v);
    }
  }

  /** The case of `EmptyInPutInside` where the cell is on the rectangle's last row. */
  lemma EmptyInPutBottomRow(g: Shape, b: Board, r: Rect, i: int, j: int, v: int)
    requires WellFormed(g, b) && Fits(g, r) && InGrid(g, i, j) && InRect(r, i, j) && i == r.bottom - 1
    ensures EmptyIn(g, Put(g, b, i, j, v), r) == EmptyIn(g, b, r) + Empty(v) - Empty(b[i][j])
  {
    var b' := Put(g, b, i, j, v);
    var r' := r.(bottom := r.bottom - 1);
    EmptyInLastRow(g, b, r);
    EmptyInLastRow(g, b', r);
    RectValsPutOutside(g, b, r', i, j, v);
    PutSliceSameRow(g, b, i, j, v, r.left, r.right);
    CountZerosUpdate(b[i][r.left..r.right], j - r.left, v);
  }

  lemma PutSliceSameRow(g: Shape, b: Board, i: int, j: int, v: int, left: int, right: int)
    requires WellFormed(g, b) && InGrid(g, i, j) && 0 <= left <= j < right <= g.N()
    ensures Put(g, b, i, j, v)[i][left..right] == b[i][left..right][j - left := v]
  {
  }

  lemma PutSliceOtherRow(g: Shape, b: Board, i: int, j: int, v: int, k: int, left: int, right: int)
    requires WellFormed(g, b) && InGrid(g, i, j) && 0 <= k < g.N() && k != i && 0 <= left <= right <= g.N()
    ensures Put(g, b, i, j, v)[k][left..right] == b[k][left..right]
  {
  }

  /** `Put` changes a rectangle's empty count only when the cell is inside it. */
  lemma EmptyInPut(g: Shape, b: Board, r: Rect, i: int, j: int, v: int)
    requires WellFormed(g, b) && Fits(g, r) && InGrid(g, i, j)
    ensures EmptyIn(g, Put(g, b, i, j, v), r)
         == EmptyIn(g, b, r) + (if InRect(r, i, j) then Empty(v) - Empty(b[i][j]) else 0)
  {
    if InRect(r, i, j) {
      EmptyInPutInside(g, b, r, i, j, v);
    } else {
      RectValsPutOutside(g, b, r, i, j, v);
    }
  }

  // ---------------------------------------------------------------------
  // Blocks: numbering and geometry

  /** Block number of cell (i, j): blocks are numbered left to right, then top to bottom. */
  function BlockOf(g: Shape, i: int, j: int): int
    requires g.Valid()
  {
    (i / g.m) * g.m + j / g.n
  }

  /** Top row of block `k` (k-th block of the enumeration over `range(0, N, m)`, `range(0, N, n)`). */
  function BlockTop(g: Shape, k: int): int
    requires g.Valid()
  {
    (k / g.m) * g.m
  }

  /** Left column of block `k`. */
  function BlockLeft(g: Shape, k: int): int
    requires g.Valid()
  {
    (k % g.m) * g.n
  }

  function BlockRect(g: Shape, k: int): Rect
    requires g.Valid()
  {
    Rect(BlockTop(g, k), BlockTop(g, k) + g.m, BlockLeft(g, k), BlockLeft(g, k) + g.n)
  }

  /** The block of (i, j) as the brute-force scans find it: top-left corner (i // m * m, j // n * n). */
  function CornerRect(g: Shape, i: int, j: int): Rect
    requires g.Valid()
  {
    Rect(i / g.m * g.m, i / g.m * g.m + g.m, j / g.n * g.n, j / g.n * g.n + g.n)
  }

  // Arithmetic facts used by the block lemmas.

  lemma MulMono(a: int, b: int, c: int)
    requires a <= b && c >= 0
    ensures a * c <= b * c
  {
  }

  lemma DivModOf(q: int, r: int, d: int)
    requires d > 0 && 0 <= r < d
    ensures (q * d + r) / d == q
    ensures (q * d + r) % d == r
  {
    var x := q * d + r;
    var q', r' := x / d, x % d;
    assert x == q' * d + r';
    assert (q - q') * d == r' - r;
    if q - q' >= 1 {
      MulMono(1, q - q', d);
    } else if q - q' <= -1 {
      MulMono(q - q', -1, d);
    }
  }

  /** `x // d == q` exactly when `x` lies in `[q*d, q*d + d)`. */
  lemma DivRange(x: int, q: int, d: int)
    requires d > 0
    ensures x / d == q <==> q * d <= x < q * d + d
  {
    var q' := x / d;
    DivModOf(q', x % d, d);
    if q * d <= x < q * d + d {
      DivModOf(q, x - q * d, d);
    }
  }

  /** A coordinate below `m * n` has a quotient by `m` below `n`. */
  lemma QuotientBound(x: int, m: int, n: int)
    requires m > 0 && n > 0 && 0 <= x < m * n
    ensures 0 <= x / m < n
  {
    var q := x / m;
    DivModOf(q, x % m, m);
    if q >= n {
      MulMono(n, q, m);
    }
  }

  /** `q * d + r` with `q < e` and `r < d` stays below `e * d`, and `(q + 1) * d <= e * d`. */
  lemma StripeBound(q: int, r: int, d: int, e: int)
    requires d > 0 && 0 <= q < e && 0 <= r < d
    ensures 0 <= q * d && q * d + d <= e * d
    ensures 0 <= q * d + r < e * d
  {
    MulMono(0, q, d);
    MulMono(q + 1, e, d);
    assert (q + 1) * d == q * d + d;
  }

  /** Block k's rectangle lies inside the grid. */
  lemma BlockFits(g: Shape, k: int)
    requires g.Valid() && 0 <= k < g.N()
    ensures Fits(g, BlockRect(g, k))
  {
    var m, n := g.m, g.n;
    QuotientBound(k, m, n);
    StripeBound(k / m, 0, m, n);
    StripeBound(k % m, 0, n, m);
    assert n * m == g.N() && m * n == g.N();
  }

  /** The block number of a cell is the block whose rectangle is the cell's corner block. */
  lemma BlockOfCell(g: Shape, i: int, j: int)
    requires g.Valid() && InGrid(g, i, j)
    ensures 0 <= BlockOf(g, i, j) < g.N()
    ensures BlockRect(g, BlockOf(g, i, j)) == CornerRect(g, i, j)
  {
    var m, n := g.m, g.n;
    var q, p := i / m, j / n;
    assert m * n == n * m;
    QuotientBound(i, m, n);
    QuotientBound(j, n, m);
    var k := q * m + p;
    assert k == BlockOf(g, i, j);
    StripeBound(q, p, m, n);
    DivModOf(q, p, m);
    assert BlockTop(g, k) == q * m;
    assert BlockLeft(g, k) == p * n;
  }

  /** A block's rectangle contains exactly the cells whose quotients are the block's coordinates. */
  lemma BlockMembers(k: int, i: int, j: int, m: int, n: int)
    requires m > 0 && n > 0 && k >= 0
    requires (k / m) * m <= i < (k / m) * m + m
    requires (k % m) * n <= j < (k % m) * n + n
    ensures (i / m) * m + j / n == k
  {
    DivRange(i, k / m, m);
    DivRange(j, k % m, n);
    assert k == (k / m) * m + k % m;
  }

  /** Each cell lies in exactly one block: the one `BlockOf` names. */
  lemma InBlockIff(g: Shape, k: int, i: int, j: int)
    requires g.Valid() && 0 <= k < g.N() && InGrid(g, i, j)
    ensures InRect(BlockRect(g, k), i, j) <==> k == BlockOf(g, i, j)
  {
    BlockOfCell(g, i, j);
    CellInCorner(g, i, j);
    if InRect(BlockRect(g, k), i, j) {
      BlockMembers(k, i, j, g.m, g.n);
    }
  }

  /** The cell's own block contains the cell. */
  lemma CellInCorner(g: Shape, i: int, j: int)
    requires g.Valid() && InGrid(g, i, j)
    ensures InRect(CornerRect(g, i, j), i, j)
  {
    DivRange(i, i / g.m, g.m);
    DivRange(j, j / g.n, g.n);
  }

  /** The block rectangle of a cell lies on the board. */
  lemma CornerFits(g: Shape, i: int, j: int)
    requires g.Valid() && InGrid(g, i, j)
    ensures Fits(g, CornerRect(g, i, j))
  {
    BlockOfCell(g, i, j);
    BlockFits(g, BlockOf(g, i, j));
  }
}
