/** A board on which Team6_A2's `minimax` disagrees with plain minimax.

    The 4 x 4 board (2 x 2 blocks)

        . . . 4
        3 4 1 2
        2 1 4 3
        . 3 2 1

    is searched by the minimizing player to depth 2 from the window (-inf, inf),
    which is what the root does at depth 3 below a move that leaves this board.
    The legal moves are (0,0,1), (0,1,2), (0,2,3), (3,0,4), in that order.  The
    third lowers beta to at most 2/9; the fourth, (3,0,4), scores -19/3, and its
    reply search receives that beta unshifted, so the reply (0,0,1), worth 19/9,
    already cuts it off, although the best reply (0,2,3) is worth 61/9.  The
    search as written returns at most -38/9; plain minimax is at least -4/9. */
module WindowCounterexample {
  import opened ExtReal
  import opened Grid
  import opened RegionIndex
  import opened LegalMoves
  import opened Scoring
  import opened AlphaBeta
  import opened AlphaBetaProofs

  const B: Board := [[0, 0, 0, 4], [3, 4, 1, 2], [2, 1, 4, 3], [0, 3, 2, 1]]

  /** The empty cells of each row, column and block of `B`, as the engine counts them. */
  const P0 := Position(B, Empties([3, 0, 0, 1], [2, 1, 1, 0], [2, 1, 1, 0]))

  const M1 := Move(0, 0, 1)
  const M2 := Move(0, 1, 2)
  const M3 := Move(0, 2, 3)
  const M4 := Move(3, 0, 4)

  /** No move is taboo.  The lemmas below take such a set as a parameter rather
      than the literal `{}`, which keeps the verifier from evaluating the whole
      game tree on literal arguments. */
  predicate NoTaboo(taboo: set<Move>)
  {
    forall mv: Move :: mv !in taboo
  }

  lemma CountZeros4(a: int, b: int, c: int, d: int)
    ensures CountZeros([a, b, c, d]) == Empty(a) + Empty(b) + Empty(c) + Empty(d)
  {
    CountZerosSnoc([], a);
    CountZerosSnoc([a], b);
    CountZerosSnoc([a, b], c);
    CountZerosSnoc([a, b, c], d);
    assert [] + [a] == [a] && [a] + [b] == [a, b] && [a, b] + [c] == [a, b, c] && [a, b, c] + [d] == [a, b, c, d];
  }

  /** The reading of a one-column rectangle of four rows. */
  lemma ColumnReading(g: Shape, b: Board, r: Rect)
    requires WellFormed(g, b) && Fits(g, r) && r.bottom == r.top + 4 && r.right == r.left + 1
    ensures RectVals(g, b, r) == [b[r.top][r.left], b[r.top + 1][r.left], b[r.top + 2][r.left], b[r.top + 3][r.left]]
  {
    var t, l := r.top, r.left;
    assert RectVals(g, b, r.(bottom := t)) == [];
    assert RectVals(g, b, r.(bottom := t + 1)) == [b[t][l]];
    assert RectVals(g, b, r.(bottom := t + 2)) == [b[t][l], b[t + 1][l]];
    assert RectVals(g, b, r.(bottom := t + 3)) == [b[t][l], b[t + 1][l], b[t + 2][l]];
  }

  /** The reading of a two-by-two rectangle. */
  lemma SquareReading(g: Shape, b: Board, r: Rect)
    requires WellFormed(g, b) && Fits(g, r) && r.bottom == r.top + 2 && r.right == r.left + 2
    ensures RectVals(g, b, r) == [b[r.top][r.left], b[r.top][r.left + 1], b[r.top + 1][r.left], b[r.top + 1][r.left + 1]]
  {
    var t, l := r.top, r.left;
    assert RectVals(g, b, r.(bottom := t)) == [];
    assert RectVals(g, b, r.(bottom := t + 1)) == [b[t][l], b[t][l + 1]];
  }

  /** Row counters of `P0`. */
  lemma RowsAreTrue(i: int)
    requires WellFormed(Shape(2, 2), B) && 0 <= i < 4
    ensures P0.empties.rows[i] == RowEmpty(Shape(2, 2), B, i)
  {
    RowVals(Shape(2, 2), B, i);
    CountZeros4(B[i][0], B[i][1], B[i][2], B[i][3]);
    assert B[i] == [B[i][0], B[i][1], B[i][2], B[i][3]];
  }

  /** Column counters of `P0`. */
  lemma ColsAreTrue(j: int)
    requires WellFormed(Shape(2, 2), B) && 0 <= j < 4
    ensures P0.empties.cols[j] == ColEmpty(Shape(2, 2), B, j)
  {
    ColumnReading(Shape(2, 2), B, ColRect(Shape(2, 2), j));
    CountZeros4(B[0][j], B[1][j], B[2][j], B[3][j]);
  }

  /** The empty cells of a two-by-two rectangle. */
  lemma SquareEmpty(g: Shape, b: Board, r: Rect)
    requires WellFormed(g, b) && Fits(g, r) && r.bottom == r.top + 2 && r.right == r.left + 2
    ensures EmptyIn(g, b, r) == Empty(b[r.top][r.left]) + Empty(b[r.top][r.left + 1])
                              + Empty(b[r.top + 1][r.left]) + Empty(b[r.top + 1][r.left + 1])
  {
    SquareReading(g, b, r);
    CountZeros4(b[r.top][r.left], b[r.top][r.left + 1], b[r.top + 1][r.left], b[r.top + 1][r.left + 1]);
  }

  /** Block counters of `P0`. */
  lemma BlocksAreTrue(k: int)
    requires WellFormed(Shape(2, 2), B) && 0 <= k < 4
    ensures P0.empties.blocks[k] == BlockEmpty(Shape(2, 2), B, k)
  {
    BlockFits(Shape(2, 2), k);
    if k == 0 {
      assert BlockRect(Shape(2, 2), 0) == Rect(0, 2, 0, 2);
      SquareEmpty(Shape(2, 2), B, Rect(0, 2, 0, 2));
    } else if k == 1 {
      assert BlockRect(Shape(2, 2), 1) == Rect(0, 2, 2, 4);
      SquareEmpty(Shape(2, 2), B, Rect(0, 2, 2, 4));
    } else if k == 2 {
      assert BlockRect(Shape(2, 2), 2) == Rect(2, 4, 0, 2);
      SquareEmpty(Shape(2, 2), B, Rect(2, 4, 0, 2));
    } else {
      assert BlockRect(Shape(2, 2), 3) == Rect(2, 4, 2, 4);
      SquareEmpty(Shape(2, 2), B, Rect(2, 4, 2, 4));
    }
  }

  /** The counters of `P0` are the true counts, so `P0` is the position the engine builds for `B`. */
  lemma StartIsTrue()
    ensures WellFormed(Shape(2, 2), B) && P0.empties == TrueCounters(Shape(2, 2), B)
  {
    assert WellFormed(Shape(2, 2), B);
    forall i | 0 <= i < 4
      ensures P0.empties.rows[i] == RowEmpty(Shape(2, 2), B, i)
        && P0.empties.cols[i] == ColEmpty(Shape(2, 2), B, i)
        && P0.empties.blocks[i] == BlockEmpty(Shape(2, 2), B, i)
    {
      RowsAreTrue(i);
      ColsAreTrue(i);
      BlocksAreTrue(i);
    }
    ConsistentUnique(Shape(2, 2), B, P0.empties);
  }

  /** Exactly M1, M2, M3 and M4 are legal on `B`. */
  lemma LegalAtStart(taboo: set<Move>, mv: Move)
    requires NoTaboo(taboo)
    requires WellFormed(Shape(2, 2), B)
    ensures IsLegal(Shape(2, 2), B, taboo, mv) <==> mv in [M1, M2, M3, M4]
  {
    if IsLegal(Shape(2, 2), B, taboo, mv) {
      assert B[mv.i][mv.j] == 0;
      if mv.i == 0 {
        assert B[0][3] == 4;
        if mv.j == 0 { assert B[1][0] == 3 && B[2][0] == 2; }
        if mv.j == 1 { assert B[1][1] == 4 && B[2][1] == 1 && B[3][1] == 3; }
        if mv.j == 2 { assert B[1][2] == 1 && B[2][2] == 4 && B[3][2] == 2; }
      } else {
        assert mv.i == 3 && mv.j == 0;
        assert B[3][1] == 3 && B[3][2] == 2 && B[3][3] == 1;
      }
    }
  }

  /** ... and the generator lists them in that order. */
  lemma MovesAtStart(taboo: set<Move>)
    requires NoTaboo(taboo)
    ensures WellFormed(Shape(2, 2), B) && GetAllLegalMoves(Shape(2, 2), B, taboo) == [M1, M2, M3, M4]
  {
    assert WellFormed(Shape(2, 2), B);
    forall mv
      ensures mv in [M1, M2, M3, M4] <==> IsLegal(Shape(2, 2), B, taboo, mv)
    {
      LegalAtStart(taboo, mv);
    }
    GeneratorOrder(Shape(2, 2), B, taboo, [M1, M2, M3, M4]);
  }

  // ---------------------------------------------------------------------
  // Scores of the placements the argument needs

  /** The heuristic of the counts that occur here. */
  lemma SmallHeuristics()
    ensures Heuristic(0) == 1.0 && Heuristic(1) == -1.0 && Heuristic(2) == 1.0 / 3.0
  {
  }

  lemma ValueFirst()
    ensures Evaluation(2, 1, 1, false) == 5.0 / 9.0
  {
    SmallHeuristics();
    assert MeanHeuristic(2, 1, 1) == -5.0 / 9.0;
  }

  lemma ValueSecond()
    ensures Evaluation(2, 0, 1, false) == -19.0 / 9.0 && Evaluation(2, 0, 1, true) == 19.0 / 9.0
  {
    SmallHeuristics();
    assert MeanHeuristic(2, 0, 1) == 1.0 / 9.0;
  }

  lemma ValueThird()
    ensures Evaluation(2, 0, 0, false) == -61.0 / 9.0 && Evaluation(2, 0, 0, true) == 61.0 / 9.0
  {
    SmallHeuristics();
    assert MeanHeuristic(2, 0, 0) == 7.0 / 9.0;
  }

  lemma ValueFourth()
    ensures Evaluation(0, 1, 0, false) == -19.0 / 3.0 && Evaluation(0, 1, 0, true) == 19.0 / 3.0
  {
    SmallHeuristics();
    assert MeanHeuristic(0, 1, 0) == 1.0 / 3.0;
  }

  lemma ValueRowLeft()
    ensures Evaluation(1, 0, 0, true) == 19.0 / 3.0
  {
    SmallHeuristics();
    assert MeanHeuristic(1, 0, 0) == 1.0 / 3.0;
  }

  /** The positions after the second, the third and the fourth move. */
  const X2 := Position([[0, 2, 0, 4], [3, 4, 1, 2], [2, 1, 4, 3], [0, 3, 2, 1]],
                       Empties([2, 0, 0, 1], [2, 0, 1, 0], [1, 1, 1, 0]))
  const X3 := Position([[0, 0, 3, 4], [3, 4, 1, 2], [2, 1, 4, 3], [0, 3, 2, 1]],
                       Empties([2, 0, 0, 1], [2, 1, 0, 0], [2, 0, 1, 0]))
  const X4 := Position([[0, 0, 0, 4], [3, 4, 1, 2], [2, 1, 4, 3], [4, 3, 2, 1]],
                       Empties([3, 0, 0, 0], [1, 1, 1, 0], [2, 1, 0, 0]))

  lemma FirstCounters()
    ensures ValidPosition(Shape(2, 2), P0)
    ensures MoveAndCalculateScore(Shape(2, 2), P0, 0, 0, 1, false).0 == Evaluation(2, 1, 1, false)
  {
    assert ValidPosition(Shape(2, 2), P0);
    assert Place(Shape(2, 2), P0, 0, 0, 1).empties == Empties([2, 0, 0, 1], [1, 1, 1, 0], [1, 1, 1, 0]);
  }

  lemma AfterSecond()
    ensures ValidPosition(Shape(2, 2), P0) && Place(Shape(2, 2), P0, 0, 1, 2) == X2
  {
    assert ValidPosition(Shape(2, 2), P0);
    var q := Place(Shape(2, 2), P0, 0, 1, 2);
    assert q.board[0] == X2.board[0];
    assert q.board == X2.board;
  }

  lemma AfterThird()
    ensures ValidPosition(Shape(2, 2), P0) && Place(Shape(2, 2), P0, 0, 2, 3) == X3
  {
    assert ValidPosition(Shape(2, 2), P0);
    var q := Place(Shape(2, 2), P0, 0, 2, 3);
    assert q.board[0] == X3.board[0];
    assert q.board == X3.board;
  }

  lemma FourthBoard()
    ensures ValidPosition(Shape(2, 2), P0) && Place(Shape(2, 2), P0, 3, 0, 4).board == X4.board
  {
    assert ValidPosition(Shape(2, 2), P0);
    assert Place(Shape(2, 2), P0, 3, 0, 4).board[3] == X4.board[3];
  }

  lemma FourthCounters()
    ensures ValidPosition(Shape(2, 2), P0) && Place(Shape(2, 2), P0, 3, 0, 4).empties == X4.empties
  {
    assert ValidPosition(Shape(2, 2), P0);
  }

  lemma AfterFourth()
    ensures ValidPosition(Shape(2, 2), P0) && Place(Shape(2, 2), P0, 3, 0, 4) == X4
  {
    FourthBoard();
    FourthCounters();
  }

  lemma FirstScore()
    ensures ValidPosition(Shape(2, 2), P0) && MoveAndCalculateScore(Shape(2, 2), P0, 0, 0, 1, false).0 == 5.0 / 9.0
  {
    FirstCounters();
    ValueFirst();
  }

  lemma SecondCounters()
    ensures ValidPosition(Shape(2, 2), P0)
    ensures MoveAndCalculateScore(Shape(2, 2), P0, 0, 1, 2, false).0 == Evaluation(2, 0, 1, false)
  {
    assert ValidPosition(Shape(2, 2), P0);
    assert BlockOf(Shape(2, 2), 0, 1) == 0;
    ScoreFromCounters(Shape(2, 2), P0, 0, 1, 2, false, 2, 0, 1);
  }

  lemma SecondScore()
    ensures ValidPosition(Shape(2, 2), P0) && MoveAndCalculateScore(Shape(2, 2), P0, 0, 1, 2, false).0 == -19.0 / 9.0
  {
    SecondCounters();
    ValueSecond();
  }

  lemma ThirdCounters()
    ensures ValidPosition(Shape(2, 2), P0)
    ensures MoveAndCalculateScore(Shape(2, 2), P0, 0, 2, 3, false).0 == Evaluation(2, 0, 0, false)
  {
    assert ValidPosition(Shape(2, 2), P0);
    assert Place(Shape(2, 2), P0, 0, 2, 3).empties == X3.empties;
  }

  lemma ThirdScore()
    ensures ValidPosition(Shape(2, 2), P0) && MoveAndCalculateScore(Shape(2, 2), P0, 0, 2, 3, false).0 == -61.0 / 9.0
  {
    ThirdCounters();
    ValueThird();
  }

  lemma FourthScoreCounters()
    ensures ValidPosition(Shape(2, 2), P0)
    ensures MoveAndCalculateScore(Shape(2, 2), P0, 3, 0, 4, false).0 == Evaluation(0, 1, 0, false)
  {
    assert ValidPosition(Shape(2, 2), P0);
    assert Place(Shape(2, 2), P0, 3, 0, 4).empties == X4.empties;
  }

  lemma FourthScore()
    ensures ValidPosition(Shape(2, 2), P0) && MoveAndCalculateScore(Shape(2, 2), P0, 3, 0, 4, false).0 == -19.0 / 3.0
  {
    FourthScoreCounters();
    ValueFourth();
  }

  // ---------------------------------------------------------------------
  // The search as written

  /** The score of a placement, read off the counters before it: each of the
      cell's three counters goes down by one, to `er`, `ec` and `eb`. */
  lemma ScoreFromCounters(g: Shape, p: Position, i: int, j: int, v: int, maximizing: bool, er: int, ec: int, eb: int)
    requires ValidPosition(g, p) && InGrid(g, i, j)
    requires 0 <= BlockOf(g, i, j) < |p.empties.blocks|
    requires p.empties.rows[i] == er + 1 && p.empties.cols[j] == ec + 1 && p.empties.blocks[BlockOf(g, i, j)] == eb + 1
    ensures MoveAndCalculateScore(g, p, i, j, v, maximizing).0 == Evaluation(er, ec, eb, maximizing)
  {
    BlockOfCell(g, i, j);
  }

  /** A maximizer's score is at most 7 unless the placement completes all three regions of its cell. */
  lemma AtMostSeven(er: int, ec: int, eb: int)
    requires er != 0 || ec != 0 || eb != 0
    ensures Evaluation(er, ec, eb, true) <= 7.0
  {
  }

  /** Every reply after the third move scores at most 7: each empty cell left
      shares its row or its column with another empty cell. */
  lemma ReplyAfterThird(taboo: set<Move>, mv: Move)
    requires NoTaboo(taboo)
    requires ValidPosition(Shape(2, 2), X3) && IsLegal(Shape(2, 2), X3.board, taboo, mv)
    ensures PlainEval(Shape(2, 2), taboo, X3, 1, mv, true) <= 7.0
  {
    LastPlyEval(Shape(2, 2), taboo, X3, mv, NegInf, PosInf, true, AsWritten);
    BlockOfCell(Shape(2, 2), mv.i, mv.j);
    var k := BlockOf(Shape(2, 2), mv.i, mv.j);
    var (er, ec, eb) := (X3.empties.rows[mv.i] - 1, X3.empties.cols[mv.j] - 1, X3.empties.blocks[k] - 1);
    ScoreFromCounters(Shape(2, 2), X3, mv.i, mv.j, mv.value, true, er, ec, eb);
    assert X3.board[mv.i][mv.j] == 0;
    if mv.i == 0 {
      assert er == 1;
    } else {
      assert mv.i == 3 && mv.j == 0;
      assert ec == 1;
    }
    AtMostSeven(er, ec, eb);
  }

  /** So the maximizer's reply search after the third move returns at most 7,
      whatever its window, and the third move evaluates to at most 2/9. */
  lemma ThirdEval(taboo: set<Move>, beta: Ext)
    requires NoTaboo(taboo)
    requires ValidPosition(Shape(2, 2), P0)
    ensures Le(TryMove(Shape(2, 2), taboo, P0, 2, M3, NegInf, beta, false, AsWritten).0, Fin(2.0 / 9.0))
  {
    AfterThird();
    ThirdScore();
    forall mv | IsLegal(Shape(2, 2), X3.board, taboo, mv)
      ensures PlainEval(Shape(2, 2), taboo, X3, 1, mv, true) <= 7.0
    {
      ReplyAfterThird(taboo, mv);
    }
    MaxNodeAtMost(Shape(2, 2), taboo, X3, 1, 7.0);
    ShallowMaxSearch(Shape(2, 2), taboo, X3, NegInf, beta, AsWritten);
  }

  /** After the fourth move the first reply is (0,0,1) ... */
  lemma FirstReplyAfterFourth(taboo: set<Move>)
    requires NoTaboo(taboo)
    ensures ValidPosition(Shape(2, 2), X4)
    ensures var moves := GetAllLegalMoves(Shape(2, 2), X4.board, taboo);
      moves != [] && moves[0] == M1 && OnEmptyCells(Shape(2, 2), X4.board, moves)
  {
    assert ValidPosition(Shape(2, 2), X4);
    assert IsLegal(Shape(2, 2), X4.board, taboo, M1);
    FirstLegalMove(Shape(2, 2), X4.board, taboo);
    LegalOnEmptyCells(Shape(2, 2), X4.board, taboo);
  }

  /** ... worth 19/9: it leaves two cells empty in its row, none in its column
      and one in its block. */
  lemma FirstReplyCounters()
    ensures ValidPosition(Shape(2, 2), X4)
    ensures MoveAndCalculateScore(Shape(2, 2), X4, 0, 0, 1, true).0 == Evaluation(2, 0, 1, true)
  {
    assert ValidPosition(Shape(2, 2), X4);
    assert Place(Shape(2, 2), X4, 0, 0, 1).empties == Empties([2, 0, 0, 0], [0, 1, 1, 0], [1, 1, 0, 0]);
  }

  /** A maximizer one ply above the horizon whose first move already scores at
      least beta stops there and returns that score. */
  lemma FirstMoveCuts(g: Shape, taboo: set<Move>, p: Position, s: real, beta: Ext, w: Window)
    requires ValidPosition(g, p)
    requires var moves := GetAllLegalMoves(g, p.board, taboo);
      && moves != [] && OnEmptyCells(g, p.board, moves)
      && MoveAndCalculateScore(g, p, moves[0].i, moves[0].j, moves[0].value, true).0 == s
    requires Le(beta, Fin(s))
    ensures Search(g, taboo, p, 1, NegInf, beta, true, w).0 == Fin(s)
  {
    var moves := GetAllLegalMoves(g, p.board, taboo);
    LastPlyEval(g, taboo, p, moves[0], NegInf, beta, true, w);
  }

  /** Any beta at most 19/9 cuts the reply search after the fourth move off at its first reply. */
  lemma FourthReply(taboo: set<Move>, beta: Ext)
    requires NoTaboo(taboo)
    requires ValidPosition(Shape(2, 2), X4) && Le(beta, Fin(19.0 / 9.0))
    ensures Search(Shape(2, 2), taboo, X4, 1, NegInf, beta, true, AsWritten).0 == Fin(19.0 / 9.0)
  {
    FirstReplyAfterFourth(taboo);
    FirstReplyCounters();
    ValueSecond();
    FirstMoveCuts(Shape(2, 2), taboo, X4, 19.0 / 9.0, beta, AsWritten);
  }

  /** So the fourth move evaluates to -19/3 + 19/9 = -38/9. */
  lemma FourthEval(taboo: set<Move>, beta: Ext)
    requires NoTaboo(taboo)
    requires ValidPosition(Shape(2, 2), P0) && Le(beta, Fin(19.0 / 9.0))
    ensures TryMove(Shape(2, 2), taboo, P0, 2, M4, NegInf, beta, false, AsWritten).0 == Fin(-38.0 / 9.0)
  {
    AfterFourth();
    FourthScore();
    FourthReply(taboo, beta);
  }

  /** While beta is above -inf, a move of the minimizer's loop from alpha = -inf
      never cuts: the loop goes on with beta lowered to the running best. */
  lemma {:induction false} MinStepNoCut(g: Shape, taboo: set<Move>, p: Position, depth: nat, moves: seq<Move>, k: nat,
                                        beta: Ext, best: Ext, w: Window)
    requires ValidPosition(g, p) && depth >= 1 && k < |moves| && OnEmptyCells(g, p.board, moves)
    requires Running(best, k, false) && beta != NegInf
    ensures var e := TryMove(g, taboo, p, depth, moves[k], NegInf, beta, false, w).0;
      var best' := Min(best, e);
      SearchLoop(g, taboo, p, depth, moves, k, NegInf, beta, best, false, w).0
        == SearchLoop(g, taboo, p, depth, moves, k + 1, NegInf, Min(beta, best'), best', false, w).0
  {
    var r := TryMove(g, taboo, p, depth, moves[k], NegInf, beta, false, w);
    assert r.1 == p && r.0.Fin?;
    var best' := Min(best, r.0);
    assert Min(beta, best').Fin?;
  }

  /** The last two of four moves of the minimizer's loop: when the third
      evaluates to at most `a` on the current beta, and the fourth to `d` on every
      beta at most `c` >= `a`, the loop returns at most `d`. */
  lemma LastTwoAtMost(g: Shape, taboo: set<Move>, p: Position, depth: nat, moves: seq<Move>,
                      beta: Ext, best: Ext, w: Window, a: real, c: real, d: real)
    requires ValidPosition(g, p) && depth >= 1 && |moves| == 4 && OnEmptyCells(g, p.board, moves)
    requires Running(best, 2, false) && beta != NegInf && a <= c
    requires forall beta' :: Le(TryMove(g, taboo, p, depth, moves[2], NegInf, beta', false, w).0, Fin(a))
    requires forall beta' :: Le(beta', Fin(c)) ==> TryMove(g, taboo, p, depth, moves[3], NegInf, beta', false, w).0 == Fin(d)
    ensures Le(SearchLoop(g, taboo, p, depth, moves, 2, NegInf, beta, best, false, w).0, Fin(d))
  {
    MinStepNoCut(g, taboo, p, depth, moves, 2, beta, best, w);
    var b3 := Min(best, TryMove(g, taboo, p, depth, moves[2], NegInf, beta, false, w).0);
    var beta3 := Min(beta, b3);
    assert Le(beta3, Fin(c));
    MinStepNoCut(g, taboo, p, depth, moves, 3, beta3, b3, w);
  }

  /** The beta and the running best of the minimizer's loop from (-inf, inf)
      after its first move ... */
  function AfterOne(g: Shape, taboo: set<Move>, p: Position, depth: nat, moves: seq<Move>, w: Window): (r: (Ext, Ext))
    requires ValidPosition(g, p) && depth >= 1 && |moves| == 4 && OnEmptyCells(g, p.board, moves)
    ensures r.0 != NegInf && r.1.Fin?
  {
    var b1 := Min(PosInf, TryMove(g, taboo, p, depth, moves[0], NegInf, PosInf, false, w).0);
    (Min(PosInf, b1), b1)
  }

  /** ... and after its second. */
  function AfterTwo(g: Shape, taboo: set<Move>, p: Position, depth: nat, moves: seq<Move>, w: Window): (r: (Ext, Ext))
    requires ValidPosition(g, p) && depth >= 1 && |moves| == 4 && OnEmptyCells(g, p.board, moves)
    ensures r.0 != NegInf && r.1.Fin?
  {
    var (beta1, b1) := AfterOne(g, taboo, p, depth, moves, w);
    var b2 := Min(b1, TryMove(g, taboo, p, depth, moves[1], NegInf, beta1, false, w).0);
    (Min(beta1, b2), b2)
  }

  /** The loop's first move does not cut ... */
  lemma FirstNoCut(g: Shape, taboo: set<Move>, p: Position, depth: nat, moves: seq<Move>, w: Window)
    requires ValidPosition(g, p) && depth >= 1 && |moves| == 4 && OnEmptyCells(g, p.board, moves)
    ensures var r := AfterOne(g, taboo, p, depth, moves, w);
      SearchLoop(g, taboo, p, depth, moves, 0, NegInf, PosInf, PosInf, false, w).0
        == SearchLoop(g, taboo, p, depth, moves, 1, NegInf, r.0, r.1, false, w).0
  {
    MinStepNoCut(g, taboo, p, depth, moves, 0, PosInf, PosInf, w);
  }

  /** ... nor does its second. */
  lemma SecondNoCut(g: Shape, taboo: set<Move>, p: Position, depth: nat, moves: seq<Move>, w: Window)
    requires ValidPosition(g, p) && depth >= 1 && |moves| == 4 && OnEmptyCells(g, p.board, moves)
    ensures var r := AfterOne(g, taboo, p, depth, moves, w);
      var r' := AfterTwo(g, taboo, p, depth, moves, w);
      SearchLoop(g, taboo, p, depth, moves, 1, NegInf, r.0, r.1, false, w).0
        == SearchLoop(g, taboo, p, depth, moves, 2, NegInf, r'.0, r'.1, false, w).0
  {
    var r := AfterOne(g, taboo, p, depth, moves, w);
    MinStepNoCut(g, taboo, p, depth, moves, 1, r.0, r.1, w);
  }

  /** The loop resumed after the first two moves, as `AfterTwo` leaves it, returns at most `d`. */
  lemma FromTwoAtMost(g: Shape, taboo: set<Move>, p: Position, depth: nat, moves: seq<Move>, w: Window,
                      a: real, c: real, d: real)
    requires ValidPosition(g, p) && depth >= 1 && a <= c && |moves| == 4 && OnEmptyCells(g, p.board, moves)
    requires forall beta :: Le(TryMove(g, taboo, p, depth, moves[2], NegInf, beta, false, w).0, Fin(a))
    requires forall beta :: Le(beta, Fin(c)) ==> TryMove(g, taboo, p, depth, moves[3], NegInf, beta, false, w).0 == Fin(d)
    ensures var r := AfterTwo(g, taboo, p, depth, moves, w);
      Le(SearchLoop(g, taboo, p, depth, moves, 2, NegInf, r.0, r.1, false, w).0, Fin(d))
  {
    var r := AfterTwo(g, taboo, p, depth, moves, w);
    LastTwoAtMost(g, taboo, p, depth, moves, r.0, r.1, w, a, c, d);
  }

  /** A search above the horizon with legal moves is its loop over them from the first. */
  lemma SearchIsLoop(g: Shape, taboo: set<Move>, p: Position, depth: nat, alpha: Ext, beta: Ext, maxPlayer: bool, w: Window)
    requires ValidPosition(g, p) && depth >= 1 && GetAllLegalMoves(g, p.board, taboo) != []
    ensures var moves := GetAllLegalMoves(g, p.board, taboo);
      OnEmptyCells(g, p.board, moves)
      && Search(g, taboo, p, depth, alpha, beta, maxPlayer, w).0
           == SearchLoop(g, taboo, p, depth, moves, 0, alpha, beta, Worst(maxPlayer), maxPlayer, w).0
  {
    LegalOnEmptyCells(g, p.board, taboo);
  }

  /** So a minimizer's search from (-inf, inf) over four such moves returns at most `d`. */
  lemma FourMovesAtMost(g: Shape, taboo: set<Move>, p: Position, depth: nat, moves: seq<Move>, w: Window,
                        a: real, c: real, d: real)
    requires ValidPosition(g, p) && depth >= 1 && a <= c
    requires GetAllLegalMoves(g, p.board, taboo) == moves && |moves| == 4 && OnEmptyCells(g, p.board, moves)
    requires forall beta :: Le(TryMove(g, taboo, p, depth, moves[2], NegInf, beta, false, w).0, Fin(a))
    requires forall beta :: Le(beta, Fin(c)) ==> TryMove(g, taboo, p, depth, moves[3], NegInf, beta, false, w).0 == Fin(d)
    ensures Le(Search(g, taboo, p, depth, NegInf, PosInf, false, w).0, Fin(d))
  {
    SearchIsLoop(g, taboo, p, depth, NegInf, PosInf, false, w);
    FirstNoCut(g, taboo, p, depth, moves, w);
    SecondNoCut(g, taboo, p, depth, moves, w);
    FromTwoAtMost(g, taboo, p, depth, moves, w, a, c, d);
  }

  /** The start position with its moves, as the search sees them. */
  lemma StartMoves(taboo: set<Move>)
    requires NoTaboo(taboo)
    ensures ValidPosition(Shape(2, 2), P0)
    ensures GetAllLegalMoves(Shape(2, 2), P0.board, taboo) == [M1, M2, M3, M4]
    ensures OnEmptyCells(Shape(2, 2), P0.board, [M1, M2, M3, M4])
  {
    StartIsTrue();
    assert ValidPosition(Shape(2, 2), P0);
    MovesAtStart(taboo);
    LegalOnEmptyCells(Shape(2, 2), B, taboo);
  }

  lemma ThirdEvalAll(taboo: set<Move>)
    requires NoTaboo(taboo)
    ensures ValidPosition(Shape(2, 2), P0)
    ensures forall beta :: Le(TryMove(Shape(2, 2), taboo, P0, 2, M3, NegInf, beta, false, AsWritten).0, Fin(2.0 / 9.0))
  {
    StartIsTrue();
    assert ValidPosition(Shape(2, 2), P0);
    forall beta
      ensures Le(TryMove(Shape(2, 2), taboo, P0, 2, M3, NegInf, beta, false, AsWritten).0, Fin(2.0 / 9.0))
    {
      ThirdEval(taboo, beta);
    }
  }

  lemma FourthEvalAll(taboo: set<Move>)
    requires NoTaboo(taboo)
    ensures ValidPosition(Shape(2, 2), P0)
    ensures forall beta :: Le(beta, Fin(19.0 / 9.0)) ==>
      TryMove(Shape(2, 2), taboo, P0, 2, M4, NegInf, beta, false, AsWritten).0 == Fin(-38.0 / 9.0)
  {
    StartIsTrue();
    assert ValidPosition(Shape(2, 2), P0);
    forall beta | Le(beta, Fin(19.0 / 9.0))
      ensures TryMove(Shape(2, 2), taboo, P0, 2, M4, NegInf, beta, false, AsWritten).0 == Fin(-38.0 / 9.0)
    {
      FourthEval(taboo, beta);
    }
  }

  /** The search as written: the minimizer's depth-2 search from (-inf, inf)
      returns at most -38/9. */
  lemma AsWrittenAtMost(taboo: set<Move>)
    requires NoTaboo(taboo)
    ensures ValidPosition(Shape(2, 2), P0)
    ensures Le(Search(Shape(2, 2), taboo, P0, 2, NegInf, PosInf, false, AsWritten).0, Fin(-38.0 / 9.0))
  {
    StartMoves(taboo);
    ThirdEvalAll(taboo);
    FourthEvalAll(taboo);
    var moves := [M1, M2, M3, M4];
    assert moves[2] == M3 && moves[3] == M4;
    FourMovesAtMost(Shape(2, 2), taboo, P0, 2, moves, AsWritten, 2.0 / 9.0, 19.0 / 9.0, -38.0 / 9.0);
  }

  // ---------------------------------------------------------------------
  // Plain minimax

  /** A maximizer one ply above the horizon is worth at least -1: 0 without a
      legal move, otherwise at least the score of any move, which is never below -1. */
  lemma ShallowMaxAtLeast(g: Shape, taboo: set<Move>, p: Position)
    requires ValidPosition(g, p)
    ensures -1.0 <= Plain(g, taboo, p, 1, true)
  {
    var moves := GetAllLegalMoves(g, p.board, taboo);
    if moves != [] {
      assert moves[0] in moves;
      LastPlyEval(g, taboo, p, moves[0], NegInf, PosInf, true, AsWritten);
      MaxNodeAtLeast(g, taboo, p, 1, moves[0]);
    }
  }

  /** A move's plain evaluation is its score plus at least the score of any one legal reply. */
  lemma EvalAtLeast(g: Shape, taboo: set<Move>, p: Position, mv: Move, q: Position, reply: Move, s: real, t: real)
    requires ValidPosition(g, p) && InGrid(g, mv.i, mv.j) && Place(g, p, mv.i, mv.j, mv.value) == q
    requires MoveAndCalculateScore(g, p, mv.i, mv.j, mv.value, false).0 == s
    requires ValidPosition(g, q) && IsLegal(g, q.board, taboo, reply)
    requires MoveAndCalculateScore(g, q, reply.i, reply.j, reply.value, true).0 == t
    ensures s + t <= PlainEval(g, taboo, p, 2, mv, false)
  {
    LastPlyEval(g, taboo, q, reply, NegInf, PosInf, true, AsWritten);
    MaxNodeAtLeast(g, taboo, q, 1, reply);
  }

  /** (0,0,1) scores 5/9, and no reply takes more than 1 back. */
  lemma FirstPlainEval(taboo: set<Move>, mv: Move)
    requires NoTaboo(taboo) && mv == M1
    ensures ValidPosition(Shape(2, 2), P0) && -4.0 / 9.0 <= PlainEval(Shape(2, 2), taboo, P0, 2, mv, false)
  {
    FirstScore();
    ShallowMaxAtLeast(Shape(2, 2), taboo, Place(Shape(2, 2), P0, 0, 0, 1));
  }

  /** After (0,1,2) the reply (0,2,3) completes a column and a block: 19/3. */
  lemma BestReplyAfterSecond(taboo: set<Move>)
    requires NoTaboo(taboo)
    ensures ValidPosition(Shape(2, 2), X2) && IsLegal(Shape(2, 2), X2.board, taboo, M3)
    ensures MoveAndCalculateScore(Shape(2, 2), X2, 0, 2, 3, true).0 == Evaluation(1, 0, 0, true)
  {
    assert ValidPosition(Shape(2, 2), X2);
    assert IsLegal(Shape(2, 2), X2.board, taboo, M3);
    assert Place(Shape(2, 2), X2, 0, 2, 3).empties == Empties([1, 0, 0, 1], [2, 0, 0, 0], [1, 0, 1, 0]);
  }

  lemma SecondPlainEval(taboo: set<Move>, mv: Move)
    requires NoTaboo(taboo) && mv == M2
    ensures ValidPosition(Shape(2, 2), P0) && 38.0 / 9.0 <= PlainEval(Shape(2, 2), taboo, P0, 2, mv, false)
  {
    AfterSecond();
    SecondScore();
    BestReplyAfterSecond(taboo);
    ValueRowLeft();
    EvalAtLeast(Shape(2, 2), taboo, P0, mv, X2, M3, -19.0 / 9.0, 19.0 / 3.0);
  }

  /** After the third move the reply (3,0,4) completes a row and a block: 19/3. */
  lemma BestReplyAfterThird(taboo: set<Move>)
    requires NoTaboo(taboo)
    ensures ValidPosition(Shape(2, 2), X3) && IsLegal(Shape(2, 2), X3.board, taboo, M4)
    ensures MoveAndCalculateScore(Shape(2, 2), X3, 3, 0, 4, true).0 == Evaluation(0, 1, 0, true)
  {
    assert ValidPosition(Shape(2, 2), X3);
    assert X3.board[3] == [0, 3, 2, 1];
    assert IsLegal(Shape(2, 2), X3.board, taboo, M4);
    assert Place(Shape(2, 2), X3, 3, 0, 4).empties == Empties([2, 0, 0, 0], [1, 1, 0, 0], [2, 0, 0, 0]);
  }

  lemma ThirdPlainEval(taboo: set<Move>, mv: Move)
    requires NoTaboo(taboo) && mv == M3
    ensures ValidPosition(Shape(2, 2), P0) && -4.0 / 9.0 <= PlainEval(Shape(2, 2), taboo, P0, 2, mv, false)
  {
    AfterThird();
    ThirdScore();
    BestReplyAfterThird(taboo);
    ValueFourth();
    EvalAtLeast(Shape(2, 2), taboo, P0, mv, X3, M4, -61.0 / 9.0, 19.0 / 3.0);
  }

  /** After the fourth move the reply (0,2,3) completes a column and a block: 61/9. */
  lemma BestReplyAfterFourth(taboo: set<Move>)
    requires NoTaboo(taboo)
    ensures ValidPosition(Shape(2, 2), X4) && IsLegal(Shape(2, 2), X4.board, taboo, M3)
    ensures MoveAndCalculateScore(Shape(2, 2), X4, 0, 2, 3, true).0 == Evaluation(2, 0, 0, true)
  {
    assert ValidPosition(Shape(2, 2), X4);
    assert IsLegal(Shape(2, 2), X4.board, taboo, M3);
    assert Place(Shape(2, 2), X4, 0, 2, 3).empties == Empties([2, 0, 0, 0], [1, 1, 0, 0], [2, 0, 0, 0]);
  }

  lemma FourthPlainEval(taboo: set<Move>, mv: Move)
    requires NoTaboo(taboo) && mv == M4
    ensures ValidPosition(Shape(2, 2), P0) && 4.0 / 9.0 <= PlainEval(Shape(2, 2), taboo, P0, 2, mv, false)
  {
    AfterFourth();
    FourthScore();
    BestReplyAfterFourth(taboo);
    ValueThird();
    EvalAtLeast(Shape(2, 2), taboo, P0, mv, X4, M3, -19.0 / 3.0, 61.0 / 9.0);
  }

  /** Each of the four moves evaluates to at least -4/9. */
  lemma EachMoveAtLeast(taboo: set<Move>, mv: Move)
    requires NoTaboo(taboo) && mv in [M1, M2, M3, M4]
    ensures ValidPosition(Shape(2, 2), P0) && -4.0 / 9.0 <= PlainEval(Shape(2, 2), taboo, P0, 2, mv, false)
  {
    if mv == M1 {
      FirstPlainEval(taboo, mv);
    } else if mv == M2 {
      SecondPlainEval(taboo, mv);
    } else if mv == M3 {
      ThirdPlainEval(taboo, mv);
    } else {
      FourthPlainEval(taboo, mv);
    }
  }

  /** ... and they are all the legal moves. */
  lemma EveryMoveAtLeast(taboo: set<Move>)
    requires NoTaboo(taboo)
    ensures ValidPosition(Shape(2, 2), P0)
    ensures forall mv :: IsLegal(Shape(2, 2), P0.board, taboo, mv) ==> -4.0 / 9.0 <= PlainEval(Shape(2, 2), taboo, P0, 2, mv, false)
  {
    StartMoves(taboo);
    forall mv | IsLegal(Shape(2, 2), P0.board, taboo, mv)
      ensures -4.0 / 9.0 <= PlainEval(Shape(2, 2), taboo, P0, 2, mv, false)
    {
      LegalAtStart(taboo, mv);
      EachMoveAtLeast(taboo, mv);
    }
  }

  /** Plain minimax of the same position is at least -4/9: every move evaluates to at least that. */
  lemma PlainAtLeast(taboo: set<Move>)
    requires NoTaboo(taboo)
    ensures ValidPosition(Shape(2, 2), P0) && -4.0 / 9.0 <= Plain(Shape(2, 2), taboo, P0, 2, false)
  {
    EveryMoveAtLeast(taboo);
    MinNodeAtLeast(Shape(2, 2), taboo, P0, 2, -4.0 / 9.0);
  }

  // ---------------------------------------------------------------------
  // The discrepancy

  /** On `B` the search as written returns a value different from plain minimax,
      and the corrected search returns the plain value. */
  lemma WindowDiscrepancy(taboo: set<Move>)
    requires NoTaboo(taboo)
    ensures ValidPosition(Shape(2, 2), P0)
    ensures Search(Shape(2, 2), taboo, P0, 2, NegInf, PosInf, false, AsWritten).0 != Fin(Plain(Shape(2, 2), taboo, P0, 2, false))
    ensures Search(Shape(2, 2), taboo, P0, 2, NegInf, PosInf, false, Shifted).0 == Fin(Plain(Shape(2, 2), taboo, P0, 2, false))
  {
    AsWrittenAtMost(taboo);
    PlainAtLeast(taboo);
    CorrectedIsPlain(Shape(2, 2), taboo, P0, 2, false);
  }
}
