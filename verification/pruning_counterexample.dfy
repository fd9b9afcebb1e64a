/** A board on which Team6_A0's `compute_best_move` proposes a move other than
    the one its root search records.

    The 4 x 4 board (2 x 2 blocks)

        . . 3 4
        3 4 1 2
        2 1 4 3
        4 3 2 .

    has the legal moves (0,0,1), (0,1,2) and (3,3,1), in that order.  Each of
    the first two completes one region, and the reply completes all three of
    its own: they evaluate to 1 - 7 = -6 at depth 2.  The third completes three
    regions, and each reply completes one: 7 - 1 = 6.  So the root records
    (3,3,1) in the global `best_move`, while the proposal after depth 2 is the
    local `best_move`, still (0,0,1). */
module PruningCounterexample {
  import opened ExtReal
  import opened Grid
  import opened RegionIndex
  import opened LegalMoves
  import opened Scoring
  import opened AlphaBeta
  import opened Pruning
  import opened WindowCounterexample

  const S := Shape(2, 2)

  const C0: Board := [[0, 0, 3, 4], [3, 4, 1, 2], [2, 1, 4, 3], [4, 3, 2, 0]]

  /** The boards after one move ... */
  const CA: Board := [[1, 0, 3, 4], [3, 4, 1, 2], [2, 1, 4, 3], [4, 3, 2, 0]]
  const CB: Board := [[0, 2, 3, 4], [3, 4, 1, 2], [2, 1, 4, 3], [4, 3, 2, 0]]
  const CC: Board := [[0, 0, 3, 4], [3, 4, 1, 2], [2, 1, 4, 3], [4, 3, 2, 1]]

  /** ... and after two. */
  const CAB: Board := [[1, 2, 3, 4], [3, 4, 1, 2], [2, 1, 4, 3], [4, 3, 2, 0]]
  const CAC: Board := [[1, 0, 3, 4], [3, 4, 1, 2], [2, 1, 4, 3], [4, 3, 2, 1]]
  const CBC: Board := [[0, 2, 3, 4], [3, 4, 1, 2], [2, 1, 4, 3], [4, 3, 2, 1]]

  const MA := Move(0, 0, 1)
  const MB := Move(0, 1, 2)
  const MC := Move(3, 3, 1)

  // ---------------------------------------------------------------------
  // Full regions of a 4 x 4 board

  lemma RowFull(b: Board, i: int)
    requires WellFormed(S, b) && 0 <= i < 4
    ensures Full(S, b, RowRect(S, i)) <==> 0 !in b[i]
  {
    FullIff(S, b, RowRect(S, i));
    RowVals(S, b, i);
    CountZerosNone(b[i]);
  }

  lemma ColFull(b: Board, j: int)
    requires WellFormed(S, b) && 0 <= j < 4
    ensures Full(S, b, ColRect(S, j)) <==> 0 !in [b[0][j], b[1][j], b[2][j], b[3][j]]
  {
    FullIff(S, b, ColRect(S, j));
    ColumnReading(S, b, ColRect(S, j));
    CountZerosNone(RectVals(S, b, ColRect(S, j)));
  }

  lemma BlockFull(b: Board, i: int, j: int)
    requires WellFormed(S, b) && InGrid(S, i, j)
    ensures var (t, l) := (i / 2 * 2, j / 2 * 2);
      && CornerRect(S, i, j) == Rect(t, t + 2, l, l + 2) && Fits(S, CornerRect(S, i, j))
      && (Full(S, b, CornerRect(S, i, j)) <==> 0 !in [b[t][l], b[t][l + 1], b[t + 1][l], b[t + 1][l + 1]])
  {
    CornerFits(S, i, j);
    var r := CornerRect(S, i, j);
    FullIff(S, b, r);
    SquareReading(S, b, r);
    CountZerosNone(RectVals(S, b, r));
  }

  /** The number of full regions around (i, j), read off the cells. */
  lemma Filled(b: Board, i: int, j: int)
    requires WellFormed(S, b) && InGrid(S, i, j)
    ensures var (t, l) := (i / 2 * 2, j / 2 * 2);
      && 0 <= t < 3 && 0 <= l < 3
      && FilledCount(S, b, i, j)
           == (if 0 !in b[i] then 1 else 0)
            + (if 0 !in [b[0][j], b[1][j], b[2][j], b[3][j]] then 1 else 0)
            + (if 0 !in [b[t][l], b[t][l + 1], b[t + 1][l], b[t + 1][l + 1]] then 1 else 0)
  {
    RowFull(b, i);
    ColFull(b, j);
    BlockFull(b, i, j);
  }

  // ---------------------------------------------------------------------
  // The placements

  /** A placement on a board, checked row by row. */
  lemma PutCell(b: Board, i: int, j: int, v: int, r: Board)
    requires WellFormed(S, b) && InGrid(S, i, j)
    requires |r| == 4 && r[i] == b[i][j := v]
    requires forall k :: 0 <= k < 4 && k != i ==> r[k] == b[k]
    ensures Put(S, b, i, j, v) == r
  {
  }

  /** The score of a placement, read off the cells of the board it leaves. */
  lemma Score(b: Board, i: int, j: int, v: int, maximizing: bool, fc: int)
    requires WellFormed(S, b) && InGrid(S, i, j)
    requires var (b', t, l) := (Put(S, b, i, j, v), i / 2 * 2, j / 2 * 2);
      fc == (if 0 !in b'[i] then 1 else 0)
            + (if 0 !in [b'[0][j], b'[1][j], b'[2][j], b'[3][j]] then 1 else 0)
            + (if 0 !in [b'[t][l], b'[t][l + 1], b'[t + 1][l], b'[t + 1][l + 1]] then 1 else 0)
    ensures 0 <= fc <= 3
    ensures CalculateMoveScore(S, b, i, j, v, maximizing).0 == if maximizing then Points(fc) else -(Points(fc) as int)
  {
    Filled(Put(S, b, i, j, v), i, j);
  }

  lemma PlaceFirst()
    ensures WellFormed(S, C0) && CalculateMoveScore(S, C0, 0, 0, 1, true) == (1, CA)
  {
    assert WellFormed(S, C0);
    PutCell(C0, 0, 0, 1, CA);
    Score(C0, 0, 0, 1, true, 1);
  }

  lemma PlaceSecond()
    ensures WellFormed(S, C0) && CalculateMoveScore(S, C0, 0, 1, 2, true) == (1, CB)
  {
    assert WellFormed(S, C0);
    PutCell(C0, 0, 1, 2, CB);
    Score(C0, 0, 1, 2, true, 1);
  }

  lemma PlaceThird()
    ensures WellFormed(S, C0) && CalculateMoveScore(S, C0, 3, 3, 1, true) == (7, CC)
  {
    assert WellFormed(S, C0);
    PutCell(C0, 3, 3, 1, CC);
    Score(C0, 3, 3, 1, true, 3);
  }

  /** After (0,0,1), each reply completes its row, column and block. */
  lemma ReplyFirstSecond()
    ensures WellFormed(S, CA) && CalculateMoveScore(S, CA, 0, 1, 2, false).0 == -7
  {
    assert WellFormed(S, CA);
    PutCell(CA, 0, 1, 2, CAB);
    Score(CA, 0, 1, 2, false, 3);
  }

  lemma ReplyFirstThird()
    ensures WellFormed(S, CA) && CalculateMoveScore(S, CA, 3, 3, 1, false).0 == -7
  {
    assert WellFormed(S, CA);
    PutCell(CA, 3, 3, 1, CAC);
    Score(CA, 3, 3, 1, false, 3);
  }

  /** After (0,1,2), likewise. */
  lemma ReplySecondFirst()
    ensures WellFormed(S, CB) && CalculateMoveScore(S, CB, 0, 0, 1, false).0 == -7
  {
    assert WellFormed(S, CB);
    PutCell(CB, 0, 0, 1, CAB);
    Score(CB, 0, 0, 1, false, 3);
  }

  lemma ReplySecondThird()
    ensures WellFormed(S, CB) && CalculateMoveScore(S, CB, 3, 3, 1, false).0 == -7
  {
    assert WellFormed(S, CB);
    PutCell(CB, 3, 3, 1, CBC);
    Score(CB, 3, 3, 1, false, 3);
  }

  /** After (3,3,1), each reply completes only its column. */
  lemma ReplyThirdFirst()
    ensures WellFormed(S, CC) && CalculateMoveScore(S, CC, 0, 0, 1, false).0 == -1
  {
    assert WellFormed(S, CC);
    PutCell(CC, 0, 0, 1, CAC);
    Score(CC, 0, 0, 1, false, 1);
  }

  lemma ReplyThirdSecond()
    ensures WellFormed(S, CC) && CalculateMoveScore(S, CC, 0, 1, 2, false).0 == -1
  {
    assert WellFormed(S, CC);
    PutCell(CC, 0, 1, 2, CBC);
    Score(CC, 0, 1, 2, false, 1);
  }

  // ---------------------------------------------------------------------
  // The legal moves

  lemma LegalOnStart(taboo: set<Move>, mv: Move)
    requires NoTaboo(taboo) && WellFormed(S, C0)
    ensures IsLegal(S, C0, taboo, mv) <==> mv in [MA, MB, MC]
  {
    if IsLegal(S, C0, taboo, mv) {
      if mv.i == 0 && mv.j == 0 {
        assert C0[0][2] == 3 && C0[0][3] == 4 && C0[1][0] == 3 && C0[2][0] == 2 && C0[3][0] == 4;
      } else if mv.i == 0 && mv.j == 1 {
        assert C0[0][2] == 3 && C0[0][3] == 4 && C0[1][1] == 4 && C0[2][1] == 1 && C0[3][1] == 3;
      } else {
        assert mv.i == 3 && mv.j == 3;
        assert C0[3][0] == 4 && C0[3][1] == 3 && C0[3][2] == 2;
      }
    }
  }

  lemma MovesOnStart(taboo: set<Move>)
    requires NoTaboo(taboo)
    ensures WellFormed(S, C0) && GetAllLegalMoves(S, C0, taboo) == [MA, MB, MC]
  {
    assert WellFormed(S, C0);
    forall mv
      ensures mv in [MA, MB, MC] <==> IsLegal(S, C0, taboo, mv)
    {
      LegalOnStart(taboo, mv);
    }
    GeneratorOrder(S, C0, taboo, [MA, MB, MC]);
  }

  lemma LegalAfterFirst(taboo: set<Move>, mv: Move)
    requires NoTaboo(taboo) && WellFormed(S, CA)
    ensures IsLegal(S, CA, taboo, mv) <==> mv in [MB, MC]
  {
    if IsLegal(S, CA, taboo, mv) {
      if mv.i == 0 {
        assert mv.j == 1;
        assert CA[0][0] == 1 && CA[0][2] == 3 && CA[0][3] == 4;
      } else {
        assert mv.i == 3 && mv.j == 3;
        assert CA[3][0] == 4 && CA[3][1] == 3 && CA[3][2] == 2;
      }
    }
  }

  lemma MovesAfterFirst(taboo: set<Move>)
    requires NoTaboo(taboo)
    ensures WellFormed(S, CA) && GetAllLegalMoves(S, CA, taboo) == [MB, MC]
  {
    assert WellFormed(S, CA);
    forall mv
      ensures mv in [MB, MC] <==> IsLegal(S, CA, taboo, mv)
    {
      LegalAfterFirst(taboo, mv);
    }
    GeneratorOrder(S, CA, taboo, [MB, MC]);
  }

  lemma LegalAfterSecond(taboo: set<Move>, mv: Move)
    requires NoTaboo(taboo) && WellFormed(S, CB)
    ensures IsLegal(S, CB, taboo, mv) <==> mv in [MA, MC]
  {
    if IsLegal(S, CB, taboo, mv) {
      if mv.i == 0 {
        assert mv.j == 0;
        assert CB[0][1] == 2 && CB[0][2] == 3 && CB[0][3] == 4;
      } else {
        assert mv.i == 3 && mv.j == 3;
        assert CB[3][0] == 4 && CB[3][1] == 3 && CB[3][2] == 2;
      }
    }
  }

  lemma MovesAfterSecond(taboo: set<Move>)
    requires NoTaboo(taboo)
    ensures WellFormed(S, CB) && GetAllLegalMoves(S, CB, taboo) == [MA, MC]
  {
    assert WellFormed(S, CB);
    forall mv
      ensures mv in [MA, MC] <==> IsLegal(S, CB, taboo, mv)
    {
      LegalAfterSecond(taboo, mv);
    }
    GeneratorOrder(S, CB, taboo, [MA, MC]);
  }

  lemma LegalAfterThird(taboo: set<Move>, mv: Move)
    requires NoTaboo(taboo) && WellFormed(S, CC)
    ensures IsLegal(S, CC, taboo, mv) <==> mv in [MA, MB]
  {
    if IsLegal(S, CC, taboo, mv) {
      assert mv.i == 0;
      if mv.j == 0 {
        assert CC[0][2] == 3 && CC[0][3] == 4 && CC[1][0] == 3 && CC[2][0] == 2 && CC[3][0] == 4;
      } else {
        assert mv.j == 1;
        assert CC[0][2] == 3 && CC[0][3] == 4 && CC[1][1] == 4 && CC[2][1] == 1 && CC[3][1] == 3;
      }
    }
  }

  lemma MovesAfterThird(taboo: set<Move>)
    requires NoTaboo(taboo)
    ensures WellFormed(S, CC) && GetAllLegalMoves(S, CC, taboo) == [MA, MB]
  {
    assert WellFormed(S, CC);
    forall mv
      ensures mv in [MA, MB] <==> IsLegal(S, CC, taboo, mv)
    {
      LegalAfterThird(taboo, mv);
    }
    GeneratorOrder(S, CC, taboo, [MA, MB]);
  }

  // ---------------------------------------------------------------------
  // The search

  /** One ply above the horizon a move's evaluation is its score alone. */
  lemma LastPly(g: Shape, taboo: set<Move>, b: Board, mv: Move, alpha: Ext, beta: Ext, maxPlayer: bool, best: Move)
    requires WellFormed(g, b) && InGrid(g, mv.i, mv.j) && b[mv.i][mv.j] == 0
    ensures Evaluate(g, taboo, b, 1, mv, alpha, beta, maxPlayer, best).0
              == CalculateMoveScore(g, b, mv.i, mv.j, mv.value, maxPlayer).0 as real
  {
  }

  /** One iteration of the loop, with the move's evaluation named `e`. */
  lemma LoopStep(g: Shape, taboo: set<Move>, b: Board, depth: nat, moves: seq<Move>, k: nat,
                 parent: int, firstTime: bool, maxPlayer: bool, v: LoopVars, e: real)
    requires WellFormed(g, b) && depth >= 1 && k < |moves| && OnEmptyCells(g, b, moves)
    requires Running(v.bestEval, k, maxPlayer)
    requires Evaluate(g, taboo, b, depth, moves[k], v.alpha, v.beta, maxPlayer, v.best).0 == e
    ensures var v' := Step(v, moves[k], e, parent, firstTime, maxPlayer);
      MinimaxLoop(g, taboo, b, depth, moves, k, parent, firstTime, maxPlayer, v)
        == if Le(v'.beta, v'.alpha) then Outcome(v'.bestEval, b, v'.best, v'.seen)
           else MinimaxLoop(g, taboo, b, depth, moves, k + 1, parent, firstTime, maxPlayer, v')
  {
  }

  /** The loop past its last move returns the running best. */
  lemma LoopEnds(g: Shape, taboo: set<Move>, b: Board, depth: nat, moves: seq<Move>,
                 parent: int, firstTime: bool, maxPlayer: bool, v: LoopVars)
    requires WellFormed(g, b) && depth >= 1 && OnEmptyCells(g, b, moves)
    requires Running(v.bestEval, |moves|, maxPlayer)
    ensures MinimaxLoop(g, taboo, b, depth, moves, |moves|, parent, firstTime, maxPlayer, v)
              == Outcome(v.bestEval, b, v.best, v.seen)
  {
  }

  /** One iteration of a loop one ply above the horizon over a move that scores
      `c`, when `c` is, or is about to become, the running best: the loop
      returns `c` at once on a cut, and otherwise goes on with `c` as the
      running best. */
  lemma LastPlyStep(g: Shape, taboo: set<Move>, b: Board, moves: seq<Move>, k: nat, next: nat,
                    parent: int, firstTime: bool, maxPlayer: bool, v: LoopVars, c: int) returns (v': LoopVars)
    requires WellFormed(g, b) && k < |moves| && next == k + 1 && OnEmptyCells(g, b, moves)
    requires CalculateMoveScore(g, b, moves[k].i, moves[k].j, moves[k].value, maxPlayer).0 == c
    requires Running(v.bestEval, k, maxPlayer)
    requires v.bestEval == Worst(maxPlayer) || v.bestEval == Fin(c as real)
    ensures v'.bestEval == Fin(c as real)
    ensures var r := MinimaxLoop(g, taboo, b, 1, moves, k, parent, firstTime, maxPlayer, v);
      if Le(v'.beta, v'.alpha) then r.value == Fin(c as real)
      else r == MinimaxLoop(g, taboo, b, 1, moves, next, parent, firstTime, maxPlayer, v')
  {
    var e := Evaluate(g, taboo, b, 1, moves[k], v.alpha, v.beta, maxPlayer, v.best).0;
    LastPly(g, taboo, b, moves[k], v.alpha, v.beta, maxPlayer, v.best);
    LoopStep(g, taboo, b, 1, moves, k, parent, firstTime, maxPlayer, v, e);
    v' := Step(v, moves[k], e, parent, firstTime, maxPlayer);
  }

  /** A search with a legal move runs the loop from the first one. */
  lemma SearchStarts(g: Shape, taboo: set<Move>, b: Board, depth: nat, alpha: Ext, beta: Ext, parent: int,
                     firstTime: bool, maxPlayer: bool, best: Move)
    requires WellFormed(g, b) && depth >= 1 && GetAllLegalMoves(g, b, taboo) != []
    ensures var moves := GetAllLegalMoves(g, b, taboo);
      && OnEmptyCells(g, b, moves)
      && Minimax(g, taboo, b, depth, alpha, beta, parent, firstTime, maxPlayer, best)
           == MinimaxLoop(g, taboo, b, depth, moves, 0, parent, firstTime, maxPlayer,
                          LoopVars(alpha, beta, Worst(maxPlayer), if maxPlayer && firstTime then moves[0] else best, []))
  {
    LegalOnEmptyCells(g, b, taboo);
  }

  /** The last move of a loop one ply above the horizon scores the running best `c`. */
  lemma LastUniform(g: Shape, taboo: set<Move>, b: Board, moves: seq<Move>, k: nat,
                    parent: int, firstTime: bool, maxPlayer: bool, v: LoopVars, c: int)
    requires WellFormed(g, b) && k + 1 == |moves| && OnEmptyCells(g, b, moves)
    requires CalculateMoveScore(g, b, moves[k].i, moves[k].j, moves[k].value, maxPlayer).0 == c
    requires Running(v.bestEval, k, maxPlayer) && v.bestEval == Fin(c as real)
    ensures MinimaxLoop(g, taboo, b, 1, moves, k, parent, firstTime, maxPlayer, v).value == Fin(c as real)
  {
    var v' := LastPlyStep(g, taboo, b, moves, k, k + 1, parent, firstTime, maxPlayer, v, c);
    if !Le(v'.beta, v'.alpha) {
      LoopEnds(g, taboo, b, 1, moves, parent, firstTime, maxPlayer, v');
    }
  }

  /** A loop one ply above the horizon over two moves that both score `c`
      returns `c`, whatever its window and whether or not it cuts. */
  lemma TwoUniform(g: Shape, taboo: set<Move>, b: Board, moves: seq<Move>,
                   parent: int, firstTime: bool, maxPlayer: bool, v: LoopVars, c: int)
    requires WellFormed(g, b) && |moves| == 2 && OnEmptyCells(g, b, moves)
    requires CalculateMoveScore(g, b, moves[0].i, moves[0].j, moves[0].value, maxPlayer).0 == c
    requires CalculateMoveScore(g, b, moves[1].i, moves[1].j, moves[1].value, maxPlayer).0 == c
    requires v.bestEval == Worst(maxPlayer)
    ensures MinimaxLoop(g, taboo, b, 1, moves, 0, parent, firstTime, maxPlayer, v).value == Fin(c as real)
  {
    var v' := LastPlyStep(g, taboo, b, moves, 0, 1, parent, firstTime, maxPlayer, v, c);
    if !Le(v'.beta, v'.alpha) {
      LastUniform(g, taboo, b, moves, 1, parent, firstTime, maxPlayer, v', c);
    }
  }

  /** So a reply search one ply above the horizon whose two moves both score
      `c` returns `c`. */
  lemma UniformSearch(g: Shape, taboo: set<Move>, b: Board, alpha: Ext, beta: Ext, parent: int,
                      maxPlayer: bool, best: Move, c: int)
    requires WellFormed(g, b)
    requires var moves := GetAllLegalMoves(g, b, taboo);
      && |moves| == 2
      && CalculateMoveScore(g, b, moves[0].i, moves[0].j, moves[0].value, maxPlayer).0 == c
      && CalculateMoveScore(g, b, moves[1].i, moves[1].j, moves[1].value, maxPlayer).0 == c
    ensures Minimax(g, taboo, b, 1, alpha, beta, parent, false, maxPlayer, best).value == Fin(c as real)
  {
    var moves := GetAllLegalMoves(g, b, taboo);
    SearchStarts(g, taboo, b, 1, alpha, beta, parent, false, maxPlayer, best);
    TwoUniform(g, taboo, b, moves, parent, false, maxPlayer, LoopVars(alpha, beta, Worst(maxPlayer), best, []), c);
  }

  /** The three moves of the root evaluate to -6, -6 and 6, on every window. */
  lemma EvalFirst(taboo: set<Move>, alpha: Ext, beta: Ext, best: Move)
    requires NoTaboo(taboo)
    ensures WellFormed(S, C0) && Evaluate(S, taboo, C0, 2, MA, alpha, beta, true, best).0 == -6.0
  {
    PlaceFirst();
    MovesAfterFirst(taboo);
    ReplyFirstSecond();
    ReplyFirstThird();
    UniformSearch(S, taboo, CA, alpha, beta, 1, false, best, -7);
  }

  lemma EvalSecond(taboo: set<Move>, alpha: Ext, beta: Ext, best: Move)
    requires NoTaboo(taboo)
    ensures WellFormed(S, C0) && Evaluate(S, taboo, C0, 2, MB, alpha, beta, true, best).0 == -6.0
  {
    PlaceSecond();
    MovesAfterSecond(taboo);
    ReplySecondFirst();
    ReplySecondThird();
    UniformSearch(S, taboo, CB, alpha, beta, 1, false, best, -7);
  }

  lemma EvalThird(taboo: set<Move>, alpha: Ext, beta: Ext, best: Move)
    requires NoTaboo(taboo)
    ensures WellFormed(S, C0) && Evaluate(S, taboo, C0, 2, MC, alpha, beta, true, best).0 == 6.0
  {
    PlaceThird();
    MovesAfterThird(taboo);
    ReplyThirdFirst();
    ReplyThirdSecond();
    UniformSearch(S, taboo, CC, alpha, beta, 7, false, best, -1);
  }

  /** One iteration of the root's loop, whose window stays (best so far, inf):
      it cannot cut, and it moves on to a strictly better evaluation. */
  lemma RootStep(g: Shape, taboo: set<Move>, b: Board, depth: nat, moves: seq<Move>, k: nat, next: nat, v: LoopVars, e: real)
      returns (v': LoopVars)
    requires WellFormed(g, b) && depth >= 1 && k < |moves| && next == k + 1 && OnEmptyCells(g, b, moves)
    requires Running(v.bestEval, k, true) && v.beta == PosInf && v.alpha == v.bestEval
    requires Evaluate(g, taboo, b, depth, moves[k], v.alpha, v.beta, true, v.best).0 == e
    ensures Running(v'.bestEval, next, true) && v'.beta == PosInf && v'.alpha == v'.bestEval
    ensures v'.bestEval == if Lt(v.bestEval, Fin(e)) then Fin(e) else v.bestEval
    ensures v'.best == if Lt(v.bestEval, Fin(e)) then moves[k] else v.best
    ensures MinimaxLoop(g, taboo, b, depth, moves, k, 0, true, true, v)
              == MinimaxLoop(g, taboo, b, depth, moves, next, 0, true, true, v')
  {
    LoopStep(g, taboo, b, depth, moves, k, 0, true, true, v, e);
    v' := Step(v, moves[k], e, 0, true, true);
  }

  /** The root's last move, evaluating above the best so far, is recorded. */
  lemma RootLast(g: Shape, taboo: set<Move>, b: Board, depth: nat, moves: seq<Move>, v: LoopVars, x: real, z: real)
    requires WellFormed(g, b) && depth >= 1 && |moves| == 3 && OnEmptyCells(g, b, moves)
    requires Running(v.bestEval, 2, true) && v.beta == PosInf && v.alpha == v.bestEval == Fin(x) && x < z
    requires Evaluate(g, taboo, b, depth, moves[2], v.alpha, v.beta, true, v.best).0 == z
    ensures MinimaxLoop(g, taboo, b, depth, moves, 2, 0, true, true, v).best == moves[2]
  {
    var v' := RootStep(g, taboo, b, depth, moves, 2, 3, v, z);
    LoopEnds(g, taboo, b, depth, moves, 0, true, true, v');
  }

  /** The root's middle move, evaluating no higher than the first, is passed over. */
  lemma RootMiddle(g: Shape, taboo: set<Move>, b: Board, depth: nat, moves: seq<Move>, v: LoopVars,
                   x: real, y: real, z: real)
    requires WellFormed(g, b) && depth >= 1 && |moves| == 3 && OnEmptyCells(g, b, moves)
    requires Running(v.bestEval, 1, true) && v.beta == PosInf && v.alpha == v.bestEval == Fin(x) && y <= x < z
    requires Evaluate(g, taboo, b, depth, moves[1], v.alpha, v.beta, true, v.best).0 == y
    requires Evaluate(g, taboo, b, depth, moves[2], v.alpha, v.beta, true, v.best).0 == z
    ensures MinimaxLoop(g, taboo, b, depth, moves, 1, 0, true, true, v).best == moves[2]
  {
    var v' := RootStep(g, taboo, b, depth, moves, 1, 2, v, y);
    assert !Lt(Fin(x), Fin(y));
    RootLast(g, taboo, b, depth, moves, v', x, z);
  }

  /** A root loop over three moves from the window (-inf, inf): when the
      second evaluation does not beat the first and the third does, the root
      records the third. */
  lemma ThreeMoveRoot(g: Shape, taboo: set<Move>, b: Board, depth: nat, moves: seq<Move>, v: LoopVars,
                      x: real, y: real, z: real)
    requires WellFormed(g, b) && depth >= 1 && |moves| == 3 && OnEmptyCells(g, b, moves)
    requires v.alpha == NegInf && v.beta == PosInf && v.bestEval == NegInf && v.best == moves[0]
    requires y <= x < z
    requires Evaluate(g, taboo, b, depth, moves[0], NegInf, PosInf, true, moves[0]).0 == x
    requires Evaluate(g, taboo, b, depth, moves[1], Fin(x), PosInf, true, moves[0]).0 == y
    requires Evaluate(g, taboo, b, depth, moves[2], Fin(x), PosInf, true, moves[0]).0 == z
    ensures MinimaxLoop(g, taboo, b, depth, moves, 0, 0, true, true, v).best == moves[2]
  {
    var v' := RootStep(g, taboo, b, depth, moves, 0, 1, v, x);
    RootMiddle(g, taboo, b, depth, moves, v', x, y, z);
  }

  /** The root at depth 2 records (3,3,1). */
  lemma RootRecordsThird(taboo: set<Move>, best: Move)
    requires NoTaboo(taboo)
    ensures WellFormed(S, C0) && RootSearch(S, taboo, C0, 2, best).best == MC
  {
    MovesOnStart(taboo);
    SearchStarts(S, taboo, C0, 2, NegInf, PosInf, 0, true, true, best);
    EvalFirst(taboo, NegInf, PosInf, MA);
    EvalSecond(taboo, Fin(-6.0), PosInf, MA);
    EvalThird(taboo, Fin(-6.0), PosInf, MA);
    ThreeMoveRoot(S, taboo, C0, 2, [MA, MB, MC], LoopVars(NegInf, PosInf, NegInf, MA, []), -6.0, -6.0, 6.0);
  }

  /** So the proposals differ: after depth 2 the source proposes (0,0,1) again,
      while the root's choice, and the corrected proposal, is (3,3,1). */
  lemma ProposalsDiffer(taboo: set<Move>)
    requires NoTaboo(taboo)
    ensures WellFormed(S, C0) && GetAllLegalMoves(S, C0, taboo) == [MA, MB, MC]
    ensures RootBest(S, taboo, C0, 2) == MC
    ensures ProposalsAsWritten(S, taboo, C0).Some? && ProposalsAsWritten(S, taboo, C0).value[1] == MA
    ensures ProposalsCorrected(S, taboo, C0).Some? && ProposalsCorrected(S, taboo, C0).value[1] == MC
  {
    MovesOnStart(taboo);
    RootRecordsThird(taboo, MA);
  }
}
