/** Per-region empty-cell counters and the paired place / undo that keep them
    in step with the board (`empty_cells_each_region`, `move_and_calculate_score`'s
    first half and `move_back` in Team6_A2/sudokuai.py). */
module RegionIndex {
  import opened Grid

  /** `empties`: `[row_empty_left, col_empty_left, blk_empty_left]`. */
  datatype Empties = Empties(rows: seq<int>, cols: seq<int>, blocks: seq<int>)

  /** The search state of Team6_A2: the shared board and its counters. */
  datatype Position = Position(board: Board, empties: Empties)

  predicate Shaped(g: Shape, e: Empties)
  {
    |e.rows| == g.N() && |e.cols| == g.N() && |e.blocks| == g.N()
  }

  /** A position the search may work on: well-formed board, counters of length N. */
  predicate ValidPosition(g: Shape, p: Position)
  {
    WellFormed(g, p.board) && Shaped(g, p.empties)
  }

  function RowEmpty(g: Shape, b: Board, i: int): nat
    requires WellFormed(g, b) && 0 <= i < g.N()
  {
    EmptyIn(g, b, RowRect(g, i))
  }

  function ColEmpty(g: Shape, b: Board, j: int): nat
    requires WellFormed(g, b) && 0 <= j < g.N()
  {
    EmptyIn(g, b, ColRect(g, j))
  }

  function BlockEmpty(g: Shape, b: Board, k: int): nat
    requires WellFormed(g, b) && 0 <= k < g.N()
  {
    BlockFits(g, k);
    EmptyIn(g, b, BlockRect(g, k))
  }

  /** The counters are the true numbers of empty cells of every region. */
  predicate Consistent(g: Shape, p: Position)
  {
    && ValidPosition(g, p)
    && (forall i :: 0 <= i < g.N() ==> p.empties.rows[i] == RowEmpty(g, p.board, i))
    && (forall j :: 0 <= j < g.N() ==> p.empties.cols[j] == ColEmpty(g, p.board, j))
    && (forall k :: 0 <= k < g.N() ==> p.empties.blocks[k] == BlockEmpty(g, p.board, k))
  }

  lemma RowVals(g: Shape, b: Board, i: int)
    requires WellFormed(g, b) && 0 <= i < g.N()
    ensures RectVals(g, b, RowRect(g, i)) == b[i]
  {
    assert RectVals(g, b, RowRect(g, i)) == [] + b[i][0..g.N()];
  }

  lemma CountZerosSnoc(s: seq<int>, x: int)
    ensures CountZeros(s + [x]) == CountZeros(s) + Empty(x)
  {
    assert (s + [x])[..|s|] == s;
  }

  /** The counters of a board, defined region by region. */
  function TrueCounters(g: Shape, b: Board): (e: Empties)
    requires WellFormed(g, b)
    ensures Consistent(g, Position(b, e))
  {
    Empties(seq(g.N(), i requires 0 <= i < g.N() => RowEmpty(g, b, i)),
            seq(g.N(), j requires 0 <= j < g.N() => ColEmpty(g, b, j)),
            seq(g.N(), k requires 0 <= k < g.N() => BlockEmpty(g, b, k)))
  }

  /** A board has only one set of consistent counters. */
  lemma ConsistentUnique(g: Shape, b: Board, e: Empties)
    requires WellFormed(g, b) && Consistent(g, Position(b, e))
    ensures e == TrueCounters(g, b)
  {
    var t := TrueCounters(g, b);
    assert e.rows == t.rows && e.cols == t.cols && e.blocks == t.blocks;
  }

  /** `empty_cells_each_region(board)`: three scans counting the empty cells
      of every row, column and block. */
  method EmptyCellsEachRegion(g: Shape, b: Board) returns (e: Empties)
    requires WellFormed(g, b)
    ensures Consistent(g, Position(b, e))
    ensures e == TrueCounters(g, b)
  {
    var rows := CountRows(g, b);
    var cols := CountCols(g, b);
    var blocks := CountBlocks(g, b);
    e := Empties(rows, cols, blocks);
    ConsistentUnique(g, b, e);
  }

  method CountRows(g: Shape, b: Board) returns (rows: seq<int>)
    requires WellFormed(g, b)
    ensures |rows| == g.N()
    ensures forall k :: 0 <= k < g.N() ==> rows[k] == RowEmpty(g, b, k)
  {
    var N := g.N();
    rows := seq(N, _ => 0);
    var i := 0;
    while i < N
      invariant 0 <= i <= N && |rows| == N
      invariant forall k :: 0 <= k < i ==> rows[k] == RowEmpty(g, b, k)
      invariant forall k :: i <= k < N ==> rows[k] == 0
    {
      var j := 0;
      while j < N
        invariant 0 <= j <= N && |rows| == N
        invariant rows[i] == CountZeros(b[i][..j])
        invariant forall k :: 0 <= k < i ==> rows[k] == RowEmpty(g, b, k)
        invariant forall k :: i < k < N ==> rows[k] == 0
      {
        assert b[i][..j + 1] == b[i][..j] + [b[i][j]];
        CountZerosSnoc(b[i][..j], b[i][j]);
        if b[i][j] == 0 {
          rows := rows[i := rows[i] + 1];
        }
        j := j + 1;
      }
      RowVals(g, b, i);
      assert b[i][..N] == b[i];
      i := i + 1;
    }
  }

  method CountCols(g: Shape, b: Board) returns (cols: seq<int>)
    requires WellFormed(g, b)
    ensures |cols| == g.N()
    ensures forall k :: 0 <= k < g.N() ==> cols[k] == ColEmpty(g, b, k)
  {
    var N := g.N();
    cols := seq(N, _ => 0);
    var j := 0;
    while j < N
      invariant 0 <= j <= N && |cols| == N
      invariant forall k :: 0 <= k < j ==> cols[k] == ColEmpty(g, b, k)
    {
      var count := CountCol(g, b, j);
      cols := cols[j := count];
      j := j + 1;
    }
  }

  /** The inner loop of the column scan: counts the empty cells of column j, top to bottom. */
  method CountCol(g: Shape, b: Board, j: int) returns (count: nat)
    requires WellFormed(g, b) && 0 <= j < g.N()
    ensures count == ColEmpty(g, b, j)
  {
    var N := g.N();
    count := 0;
    var i := 0;
    while i < N
      invariant 0 <= i <= N
      invariant count == EmptyIn(g, b, Rect(0, i, j, j + 1))
    {
      EmptyInLastRow(g, b, Rect(0, i + 1, j, j + 1));
      assert b[i][j..j + 1] == [b[i][j]];
      assert CountZeros([b[i][j]]) == Empty(b[i][j]) by {
        assert [b[i][j]][..0] == [];
      }
      if b[i][j] == 0 {
        count := count + 1;
      }
      i := i + 1;
    }
  }

  /** Counts the empty cells of one block, row by row. */
  method CountBlock(g: Shape, b: Board, blk: Rect) returns (count: nat)
    requires WellFormed(g, b) && Fits(g, blk)
    ensures count == EmptyIn(g, b, blk)
  {
    count := 0;
    var i := blk.top;
    while i < blk.bottom
      invariant blk.top <= i <= blk.bottom
      invariant count == EmptyIn(g, b, blk.(bottom := i))
    {
      var inRow := CountSlice(b[i], blk.left, blk.right);
      EmptyInLastRow(g, b, blk.(bottom := i + 1));
      count := count + inRow;
      i := i + 1;
    }
    assert blk.(bottom := blk.bottom) == blk;
  }

  /** The innermost loop of the block scan: the empty cells of `row[c..right]`. */
  method CountSlice(row: seq<int>, c: int, right: int) returns (count: nat)
    requires 0 <= c <= right <= |row|
    ensures count == CountZeros(row[c..right])
  {
    count := 0;
    var j := c;
    while j < right
      invariant c <= j <= right
      invariant count == CountZeros(row[c..j])
    {
      assert row[c..j + 1] == row[c..j] + [row[j]];
      CountZerosSnoc(row[c..j], row[j]);
      if row[j] == 0 {
        count := count + 1;
      }
      j := j + 1;
    }
  }

  /** The block visited with corner (br * m, bc * n) is block number br * m + bc. */
  lemma BlockCorner(g: Shape, br: int, bc: int)
    requires g.Valid() && 0 <= br < g.n && 0 <= bc < g.m
    ensures 0 <= br * g.m + bc < g.N()
    ensures br * g.m + g.m == (br + 1) * g.m
    ensures BlockRect(g, br * g.m + bc) == Rect(br * g.m, br * g.m + g.m, bc * g.n, bc * g.n + g.n)
    ensures Fits(g, BlockRect(g, br * g.m + bc))
  {
    StripeBound(br, bc, g.m, g.n);
    DivModOf(br, bc, g.m);
    BlockFits(g, br * g.m + bc);
  }

  /** The corner (r, c) runs over range(0, N, m) x range(0, N, n), written here as
      r = br * m, c = bc * n; `nBlock` counts the blocks visited. */
  method CountBlocks(g: Shape, b: Board) returns (blocks: seq<int>)
    requires WellFormed(g, b)
    ensures |blocks| == g.N()
    ensures forall k :: 0 <= k < g.N() ==> blocks[k] == BlockEmpty(g, b, k)
  {
    var N, m, n := g.N(), g.m, g.n;
    blocks := seq(N, _ => 0);
    var nBlock := 0;
    var br := 0;
    while br < n
      invariant 0 <= br <= n && |blocks| == N
      invariant nBlock == br * m && 0 <= nBlock <= N
      invariant forall k :: 0 <= k < nBlock ==> blocks[k] == BlockEmpty(g, b, k)
      invariant forall k :: nBlock <= k < N ==> blocks[k] == 0
    {
      var bc := 0;
      while bc < m
        invariant 0 <= bc <= m && |blocks| == N
        invariant nBlock == br * m + bc && 0 <= nBlock <= N
        invariant forall k :: 0 <= k < nBlock ==> blocks[k] == BlockEmpty(g, b, k)
        invariant forall k :: nBlock <= k < N ==> blocks[k] == 0
      {
        BlockCorner(g, br, bc);
        var count := CountBlock(g, b, BlockRect(g, nBlock));
        blocks := blocks[nBlock := count];
        nBlock := nBlock + 1;
        bc := bc + 1;
      }
      BlockCorner(g, br, 0);
      br := br + 1;
    }
  }

  // ---------------------------------------------------------------------
  // Place and undo

  /** Adds `d` to the counters of the row, the column and the block of (i, j). */
  function Shift(g: Shape, e: Empties, i: int, j: int, d: int): (r: Empties)
    requires Shaped(g, e) && InGrid(g, i, j)
    ensures Shaped(g, r)
  {
    var k := BlockOf(g, i, j);
    BlockOfCell(g, i, j);
    Empties(e.rows[i := e.rows[i] + d], e.cols[j := e.cols[j] + d], e.blocks[k := e.blocks[k] + d])
  }

  /** The first half of `move_and_calculate_score`: put `v` at (i, j) and
      decrement the three counters of the cell's row, column and block. */
  function Place(g: Shape, p: Position, i: int, j: int, v: int): (r: Position)
    requires ValidPosition(g, p) && InGrid(g, i, j)
    ensures ValidPosition(g, r)
  {
    Position(Put(g, p.board, i, j, v), Shift(g, p.empties, i, j, -1))
  }

  /** `move_back`: clear (i, j) and increment the three counters again. */
  function MoveBack(g: Shape, p: Position, i: int, j: int): (r: Position)
    requires ValidPosition(g, p) && InGrid(g, i, j)
    ensures ValidPosition(g, r)
  {
    Position(Put(g, p.board, i, j, 0), Shift(g, p.empties, i, j, 1))
  }

  /** Placing on an empty cell and moving back restores board and all three counter arrays exactly. */
  lemma MoveBackAfterPlace(g: Shape, p: Position, i: int, j: int, v: int)
    requires ValidPosition(g, p) && InGrid(g, i, j)
    requires p.board[i][j] == 0
    ensures MoveBack(g, Place(g, p, i, j, v), i, j) == p
  {
    PutBack(g, p.board, i, j, v);
    var k := BlockOf(g, i, j);
    BlockOfCell(g, i, j);
    var e := p.empties;
    assert e.rows[i := e.rows[i] - 1][i := e.rows[i]] == e.rows;
    assert e.cols[j := e.cols[j] - 1][j := e.cols[j]] == e.cols;
    assert e.blocks[k := e.blocks[k] - 1][k := e.blocks[k]] == e.blocks;
  }

  /** The change of one cell, seen by the row counters. */
  lemma PutRows(g: Shape, b: Board, i: int, j: int, v: int, rows: seq<int>)
    requires WellFormed(g, b) && InGrid(g, i, j) && |rows| == g.N()
    requires forall k :: 0 <= k < g.N() ==> rows[k] == RowEmpty(g, b, k)
    ensures forall k :: 0 <= k < g.N() ==>
      rows[i := rows[i] + Empty(v) - Empty(b[i][j])][k] == RowEmpty(g, Put(g, b, i, j, v), k)
  {
    forall k | 0 <= k < g.N()
      ensures rows[i := rows[i] + Empty(v) - Empty(b[i][j])][k] == RowEmpty(g, Put(g, b, i, j, v), k)
    {
      EmptyInPut(g, b, RowRect(g, k), i, j, v);
    }
  }

  /** The change of one cell, seen by the column counters. */
  lemma PutCols(g: Shape, b: Board, i: int, j: int, v: int, cols: seq<int>)
    requires WellFormed(g, b) && InGrid(g, i, j) && |cols| == g.N()
    requires forall k :: 0 <= k < g.N() ==> cols[k] == ColEmpty(g, b, k)
    ensures forall k :: 0 <= k < g.N() ==>
      cols[j := cols[j] + Empty(v) - Empty(b[i][j])][k] == ColEmpty(g, Put(g, b, i, j, v), k)
  {
    forall k | 0 <= k < g.N()
      ensures cols[j := cols[j] + Empty(v) - Empty(b[i][j])][k] == ColEmpty(g, Put(g, b, i, j, v), k)
    {
      EmptyInPut(g, b, ColRect(g, k), i, j, v);
    }
  }

  /** The change of one cell, seen by the block counters: only block `BlockOf(i, j)` moves. */
  lemma PutBlocks(g: Shape, b: Board, i: int, j: int, v: int, blocks: seq<int>)
    requires WellFormed(g, b) && InGrid(g, i, j) && |blocks| == g.N()
    requires forall k :: 0 <= k < g.N() ==> blocks[k] == BlockEmpty(g, b, k)
    requires 0 <= BlockOf(g, i, j) < g.N()
    ensures forall k :: 0 <= k < g.N() ==>
      blocks[BlockOf(g, i, j) := blocks[BlockOf(g, i, j)] + Empty(v) - Empty(b[i][j])][k]
        == BlockEmpty(g, Put(g, b, i, j, v), k)
  {
    var bo := BlockOf(g, i, j);
    var d := Empty(v) - Empty(b[i][j]);
    forall k | 0 <= k < g.N()
      ensures blocks[bo := blocks[bo] + d][k] == BlockEmpty(g, Put(g, b, i, j, v), k)
    {
      BlockFits(g, k);
      EmptyInPut(g, b, BlockRect(g, k), i, j, v);
      InBlockIff(g, k, i, j);
    }
  }

  /** Writing `v` at (i, j) and shifting the cell's three counters by the change
      in emptiness keeps counters that counted the board counting it. */
  lemma PutKeepsConsistent(g: Shape, p: Position, i: int, j: int, v: int)
    requires Consistent(g, p) && InGrid(g, i, j)
    ensures Consistent(g, Position(Put(g, p.board, i, j, v),
                                   Shift(g, p.empties, i, j, Empty(v) - Empty(p.board[i][j]))))
  {
    BlockOfCell(g, i, j);
    PutRows(g, p.board, i, j, v, p.empties.rows);
    PutCols(g, p.board, i, j, v, p.empties.cols);
    PutBlocks(g, p.board, i, j, v, p.empties.blocks);
  }

  /** After a placement of a number on an empty cell the counters still count the board. */
  lemma PlaceConsistent(g: Shape, p: Position, i: int, j: int, v: int)
    requires Consistent(g, p) && InGrid(g, i, j)
    requires p.board[i][j] == 0 && v != 0
    ensures Consistent(g, Place(g, p, i, j, v))
  {
    PutKeepsConsistent(g, p, i, j, v);
  }

  /** Moving back a filled cell keeps the counters counting the board. */
  lemma MoveBackConsistent(g: Shape, p: Position, i: int, j: int)
    requires Consistent(g, p) && InGrid(g, i, j)
    requires p.board[i][j] != 0
    ensures Consistent(g, MoveBack(g, p, i, j))
  {
    PutKeepsConsistent(g, p, i, j, 0);
  }
}
