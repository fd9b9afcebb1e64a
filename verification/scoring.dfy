/** Scoring a single placement.

    Two scorers exist in the engine.  Team6_A2/sudokuai.py reads the
    per-region empty counters after the placement (`move_and_calculate_score`)
    and adds a parity heuristic to twice the game points; Team6_A0/sudokuai_pruning.py
    re-scans the row, column and block of the cell (`calculate_move_score`)
    and returns the game points alone.  Both are proved to follow the game
    rule: completing k of the cell's three regions earns 0, 1, 3 or 7 points. */
module Scoring {
  import opened Grid
  import opened RegionIndex

  // ---------------------------------------------------------------------
  // The game's reward

  function Pow2(k: nat): nat
  {
    if k == 0 then 1 else 2 * Pow2(k - 1)
  }

  /** `points_rule = {0: 0, 1: 1, 2: 3, 3: 7}`: completing k regions at once earns 2^k - 1. */
  function Points(k: int): (r: nat)
    requires 0 <= k <= 3
    ensures r + 1 == Pow2(k)
  {
    if k == 0 then 0 else if k == 1 then 1 else if k == 2 then 3 else 7
  }

  /** A region has no empty cell. */
  ghost predicate Full(g: Shape, b: Board, r: Rect)
    requires WellFormed(g, b) && Fits(g, r)
  {
    forall l, k :: InRect(r, l, k) ==> b[l][k] != 0
  }

  /** How many of the row, the column and the block of (i, j) are full. */
  ghost function FilledCount(g: Shape, b: Board, i: int, j: int): (c: nat)
    requires WellFormed(g, b) && InGrid(g, i, j)
    ensures c <= 3
  {
    CornerFits(g, i, j);
    (if Full(g, b, RowRect(g, i)) then 1 else 0)
      + (if Full(g, b, ColRect(g, j)) then 1 else 0)
      + (if Full(g, b, CornerRect(g, i, j)) then 1 else 0)
  }

  /** The sign the engine gives a score: kept for the maximizing player, negated otherwise. */
  function Signed(maximizing: bool, x: real): real
  {
    if maximizing then x else -x
  }

  // ---------------------------------------------------------------------
  // Team6_A2: counters plus a parity heuristic

  /** `calculate_heuristic_score(empty_left)`: 1 / (e + 1) for an even number of
      empty cells left, -1 / e for an odd number.  Python's `%` and Dafny's agree
      for the modulus 2, also on negative numbers. */
  function Heuristic(e: int): (r: real)
    ensures -1.0 <= r <= 1.0
    ensures e >= 0 && e % 2 == 0 ==> 0.0 < r
    ensures e >= 0 && e % 2 == 1 ==> r < 0.0
    ensures e == 0 ==> r == 1.0
  {
    if e % 2 == 0 then 1.0 / (e + 1) as real else -1.0 / e as real
  }

  /** The mean heuristic of three regions. */
  function MeanHeuristic(er: int, ec: int, eb: int): (h: real)
    ensures -1.0 <= h <= 1.0
  {
    (Heuristic(er) + Heuristic(ec) + Heuristic(eb)) / 3.0
  }

  /** The second half of `move_and_calculate_score`, on the three counters read
      after the placement: the mean heuristic plus twice the points for the regions
      whose counter reached 0, negated for the minimizer. */
  function Evaluation(er: int, ec: int, eb: int, maximizing: bool): (r: real)
    ensures -15.0 <= r <= 15.0
    ensures er != 0 && ec != 0 && eb != 0 ==> -1.0 <= r <= 1.0
    ensures maximizing ==> -1.0 <= r
    ensures !maximizing ==> r <= 1.0
  {
    var completed := Empty(er) + Empty(ec) + Empty(eb);
    Signed(maximizing, MeanHeuristic(er, ec, eb) + 2.0 * Points(completed) as real)
  }

  /** The three counters of the cell (i, j): its row's, its column's and its block's. */
  function CellCounters(g: Shape, e: Empties, i: int, j: int): (int, int, int)
    requires Shaped(g, e) && InGrid(g, i, j)
  {
    BlockOfCell(g, i, j);
    (e.rows[i], e.cols[j], e.blocks[BlockOf(g, i, j)])
  }

  /** `move_and_calculate_score(board, i, j, value, maximizing)`: place, decrement
      the counters, and score from the decremented counters (see `ScoreMeaning`). */
  function MoveAndCalculateScore(g: Shape, p: Position, i: int, j: int, v: int, maximizing: bool)
    : (r: (real, Position))
    requires ValidPosition(g, p) && InGrid(g, i, j)
    ensures r.1 == Place(g, p, i, j, v)
    ensures -15.0 <= r.0 <= 15.0
  {
    var q := Place(g, p, i, j, v);
    var (er, ec, eb) := CellCounters(g, q.empties, i, j);
    (Evaluation(er, ec, eb, maximizing), q)
  }

  /** When the counters counted the board and the cell was empty, the placement
      keeps them counting, and the score is the heuristic of the true empty
      counts left plus twice the game points of the regions the placement completed. */
  lemma ScoreMeaning(g: Shape, p: Position, i: int, j: int, v: int, maximizing: bool)
    requires Consistent(g, p) && InGrid(g, i, j) && p.board[i][j] == 0 && v != 0
    ensures var (s, q) := MoveAndCalculateScore(g, p, i, j, v, maximizing);
      && Consistent(g, q)
      && s == Signed(maximizing, TrueMean(g, q.board, i, j) + 2.0 * Points(FilledCount(g, q.board, i, j)) as real)
  {
    var q := Place(g, p, i, j, v);
    PlaceConsistent(g, p, i, j, v);
    CountersOfCell(g, q, i, j);
  }

  /** The mean heuristic of the true empty counts of the cell's three regions. */
  function TrueMean(g: Shape, b: Board, i: int, j: int): real
    requires WellFormed(g, b) && InGrid(g, i, j)
  {
    CornerFits(g, i, j);
    MeanHeuristic(EmptyIn(g, b, RowRect(g, i)), EmptyIn(g, b, ColRect(g, j)), EmptyIn(g, b, CornerRect(g, i, j)))
  }

  /** Consistent counters at a cell are the true counts, and the regions whose
      counter is 0 are exactly the full ones. */
  lemma CountersOfCell(g: Shape, q: Position, i: int, j: int)
    requires Consistent(g, q) && InGrid(g, i, j)
    ensures
      var (er, ec, eb) := CellCounters(g, q.empties, i, j);
      && MeanHeuristic(er, ec, eb) == TrueMean(g, q.board, i, j)
      && Empty(er) + Empty(ec) + Empty(eb) == FilledCount(g, q.board, i, j)
  {
    var b := q.board;
    BlockOfCell(g, i, j);
    CornerFits(g, i, j);
    var k := BlockOf(g, i, j);
    var (er, ec, eb) := CellCounters(g, q.empties, i, j);
    assert er == EmptyIn(g, b, RowRect(g, i)) by {
      assert q.empties.rows[i] == RowEmpty(g, b, i);
    }
    assert ec == EmptyIn(g, b, ColRect(g, j)) by {
      assert q.empties.cols[j] == ColEmpty(g, b, j);
    }
    assert eb == EmptyIn(g, b, CornerRect(g, i, j)) by {
      assert q.empties.blocks[k] == BlockEmpty(g, b, k);
    }
    FullIff(g, b, RowRect(g, i));
    FullIff(g, b, ColRect(g, j));
    FullIff(g, b, CornerRect(g, i, j));
  }

  lemma FullIff(g: Shape, b: Board, r: Rect)
    requires WellFormed(g, b) && Fits(g, r)
    ensures Full(g, b, r) <==> EmptyIn(g, b, r) == 0
  {
    EmptyInZero(g, b, r);
  }

  // ---------------------------------------------------------------------
  // Team6_A0: scans

  /** One scan of `calculate_move_score`: start at 1 and stop with 0 at the
      first empty cell.  (The block scan breaks only out of its inner loop, but
      the flag is never reset, so it yields the same value.) */
  function ScanFilled(s: seq<int>): (f: int)
    ensures f == 0 || f == 1
    ensures f == 1 <==> 0 !in s
  {
    if s == [] then 1
    else if s[0] == 0 then 0
    else
      assert s == [s[0]] + s[1..];
      ScanFilled(s[1..])
  }

  /** The `if` chain of `calculate_move_score` mapping the number of filled regions to a score. */
  function ChainScore(filled: int, maximizing: bool): int
  {
    if maximizing then
      if filled == 0 then 0 else if filled == 1 then 1 else if filled == 2 then 3 else if filled == 3 then 7 else 0
    else
      if filled == 0 then 0 else if filled == 1 then -1 else if filled == 2 then -3 else if filled == 3 then -7 else 0
  }

  lemma ScanIsFull(g: Shape, b: Board, r: Rect)
    requires WellFormed(g, b) && Fits(g, r)
    ensures ScanFilled(RectVals(g, b, r)) == if Full(g, b, r) then 1 else 0
  {
    InRectVals(g, b, r, 0);
  }

  /** `calculate_move_score(board, i, j, value, maximizing)`: place `value`, scan the
      cell's row, column and block for an empty cell, and score the number of
      full ones: the game points, negated for the minimizer. */
  function CalculateMoveScore(g: Shape, b: Board, i: int, j: int, v: int, maximizing: bool): (r: (int, Board))
    requires WellFormed(g, b) && InGrid(g, i, j)
    ensures r.1 == Put(g, b, i, j, v)
    ensures r.0 == if maximizing then Points(FilledCount(g, r.1, i, j)) else -(Points(FilledCount(g, r.1, i, j)) as int)
  {
    var b' := Put(g, b, i, j, v);
    CornerFits(g, i, j);
    var row := ScanFilled(RectVals(g, b', RowRect(g, i)));
    var column := ScanFilled(RectVals(g, b', ColRect(g, j)));
    var block := ScanFilled(RectVals(g, b', CornerRect(g, i, j)));
    ScanIsFull(g, b', RowRect(g, i));
    ScanIsFull(g, b', ColRect(g, j));
    ScanIsFull(g, b', CornerRect(g, i, j));
    (ChainScore(row + column + block, maximizing), b')
  }

  // ---------------------------------------------------------------------
  // The two scorers side by side

  /** On a consistent position and an empty cell, Team6_A2's score is Team6_A0's
      points counted twice plus the signed mean heuristic, and both leave the same board. */
  lemma ScorersAgree(g: Shape, p: Position, i: int, j: int, v: int, maximizing: bool)
    requires Consistent(g, p) && InGrid(g, i, j) && p.board[i][j] == 0 && v != 0
    ensures
      var (s2, q) := MoveAndCalculateScore(g, p, i, j, v, maximizing);
      var (s0, b0) := CalculateMoveScore(g, p.board, i, j, v, maximizing);
      && q.board == b0
      && s2 == Signed(maximizing, TrueMean(g, b0, i, j)) + 2.0 * s0 as real
  {
    ScoreMeaning(g, p, i, j, v, maximizing);
  }
}
