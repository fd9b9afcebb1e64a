/** What the search with the shifted window computes: the value of plain
    minimax (`CorrectedIsPlain`), by the fail-soft bounds of alpha-beta
    (`ShiftedSound`) carried through the move loop (`MaxLoopSound`, `MinLoopSound`). */
module AlphaBetaProofs {
  import opened ExtReal
  import opened Grid
  import opened RegionIndex
  import opened LegalMoves
  import opened Scoring
  import opened AlphaBeta

  /** The fail-soft contract of alpha-beta on the window (alpha, beta): a value
      below beta bounds the true value `t` from above, a value above alpha bounds
      it from below; inside the window the two are equal. */
  predicate FailSoft(v: Ext, t: Ext, alpha: Ext, beta: Ext)
  {
    (Lt(v, beta) ==> Le(t, v)) && (Lt(alpha, v) ==> Le(v, t))
  }

  /** A child's fail-soft bounds on the shifted window, seen from the parent after adding the score. */
  lemma ChildInParentFrame(s: real, alpha: Ext, beta: Ext, child: Ext, t: real)
    requires FailSoft(child, Fin(t), Sub(alpha, s), Sub(beta, s))
    ensures FailSoft(Add(s, child), Fin(s + t), alpha, beta)
  {
    SubLt(s, child, beta);
    SubLt(s, child, alpha);
    ShiftLt(s, Fin(t), child);
  }

  lemma MaxAssoc(a: Ext, b: Ext, c: Ext)
    ensures Max(a, Max(b, c)) == Max(Max(a, b), c)
  {
  }

  lemma MinAssoc(a: Ext, b: Ext, c: Ext)
    ensures Min(a, Min(b, c)) == Min(Min(a, b), c)
  {
  }

  /** One step of the maximizer's loop on values alone: the new running maximum,
      window and plain prefix keep the loop's bounds, and a cut ends with the
      fail-soft bounds whatever the unvisited moves are worth (`rest`). */
  lemma MaxStep(alpha0: Ext, alpha: Ext, beta: Ext, best: Ext, t: Ext, eval: Ext, truth: Ext, rest: Ext)
    requires alpha == Max(alpha0, best) && Lt(alpha, beta)
    requires Le(t, best) && (Lt(alpha0, best) ==> Le(best, t))
    requires FailSoft(eval, truth, alpha, beta)
    ensures Max(alpha, Max(best, eval)) == Max(alpha0, Max(best, eval))
    ensures Lt(alpha0, Max(best, eval)) ==> Le(Max(best, eval), Max(t, truth))
    ensures !Le(beta, Max(alpha, Max(best, eval))) ==> Le(Max(t, truth), Max(best, eval))
    ensures Le(beta, Max(alpha, Max(best, eval))) ==> FailSoft(Max(best, eval), Max(Max(t, truth), rest), alpha0, beta)
  {
  }

  /** One step of the minimizer's loop, the mirror image of `MaxStep`. */
  lemma MinStep(beta0: Ext, alpha: Ext, beta: Ext, best: Ext, t: Ext, eval: Ext, truth: Ext, rest: Ext)
    requires beta == Min(beta0, best) && Lt(alpha, beta)
    requires Le(best, t) && (Lt(best, beta0) ==> Le(t, best))
    requires FailSoft(eval, truth, alpha, beta)
    ensures Min(beta, Min(best, eval)) == Min(beta0, Min(best, eval))
    ensures Lt(Min(best, eval), beta0) ==> Le(Min(t, truth), Min(best, eval))
    ensures !Le(Min(beta, Min(best, eval)), alpha) ==> Le(Min(best, eval), Min(t, truth))
    ensures Le(Min(beta, Min(best, eval)), alpha) ==> FailSoft(Min(best, eval), Min(Min(t, truth), rest), alpha, beta0)
  {
  }

  /** The shifted search is fail-soft with respect to plain minimax, on every window that is not empty. */
  lemma {:induction false} ShiftedSound(g: Shape, taboo: set<Move>, p: Position, depth: nat,
                                        alpha: Ext, beta: Ext, maxPlayer: bool)
    requires ValidPosition(g, p) && Lt(alpha, beta)
    ensures FailSoft(Search(g, taboo, p, depth, alpha, beta, maxPlayer, Shifted).0,
                     Fin(Plain(g, taboo, p, depth, maxPlayer)), alpha, beta)
    decreases depth, 1, 0
  {
    if depth > 0 {
      var moves := GetAllLegalMoves(g, p.board, taboo);
      if moves != [] {
        LegalOnEmptyCells(g, p.board, taboo);
        var first := PlainFrom(g, taboo, p, depth, moves, 0, maxPlayer);
        assert Fin(Plain(g, taboo, p, depth, maxPlayer)) == first;
        assert Search(g, taboo, p, depth, alpha, beta, maxPlayer, Shifted)
            == SearchLoop(g, taboo, p, depth, moves, 0, alpha, beta, Worst(maxPlayer), maxPlayer, Shifted);
        if maxPlayer {
          MaxLoopSound(g, taboo, p, depth, moves, 0, alpha, beta, NegInf, alpha, NegInf);
          assert Max(NegInf, first) == first;
        } else {
          MinLoopSound(g, taboo, p, depth, moves, 0, alpha, beta, PosInf, beta, PosInf);
          assert Min(PosInf, first) == first;
        }
      }
    }
  }

  /** One move of the shifted search, against the plain value of the move. */
  lemma {:induction false} TryMoveSound(g: Shape, taboo: set<Move>, p: Position, depth: nat, mv: Move,
                                        alpha: Ext, beta: Ext, maxPlayer: bool)
    requires ValidPosition(g, p) && depth >= 1 && InGrid(g, mv.i, mv.j) && p.board[mv.i][mv.j] == 0
    requires Lt(alpha, beta)
    ensures FailSoft(TryMove(g, taboo, p, depth, mv, alpha, beta, maxPlayer, Shifted).0,
                     Fin(PlainEval(g, taboo, p, depth, mv, maxPlayer)), alpha, beta)
    decreases depth, 0, 0
  {
    var (s, placed) := MoveAndCalculateScore(g, p, mv.i, mv.j, mv.value, maxPlayer);
    var (lo, hi) := ChildWindow(alpha, beta, s, Shifted);
    ShiftLt(s, lo, hi);
    ShiftedSound(g, taboo, placed, depth - 1, lo, hi, !maxPlayer);
    var child := Search(g, taboo, placed, depth - 1, lo, hi, !maxPlayer, Shifted).0;
    ChildInParentFrame(s, alpha, beta, child, Plain(g, taboo, placed, depth - 1, !maxPlayer));
  }

  /** The maximizer's loop from move k on.  `best` is the running maximum of the
      evaluations so far, `t` the plain value of the moves so far, and `alpha0`
      the window's lower end at the start of the loop. */
  lemma {:induction false} MaxLoopSound(g: Shape, taboo: set<Move>, p: Position, depth: nat, moves: seq<Move>,
                                        k: nat, alpha: Ext, beta: Ext, best: Ext, alpha0: Ext, t: Ext)
    requires ValidPosition(g, p) && depth >= 1 && k <= |moves| && OnEmptyCells(g, p.board, moves)
    requires Running(best, k, true)
    requires alpha == Max(alpha0, best) && Lt(alpha, beta)
    requires Le(t, best) && (Lt(alpha0, best) ==> Le(best, t))
    ensures FailSoft(SearchLoop(g, taboo, p, depth, moves, k, alpha, beta, best, true, Shifted).0,
                     Max(t, PlainFrom(g, taboo, p, depth, moves, k, true)), alpha0, beta)
    decreases depth, 0, |moves| - k
  {
    if k < |moves| {
      var mv := moves[k];
      TryMoveSound(g, taboo, p, depth, mv, alpha, beta, true);
      var eval := TryMove(g, taboo, p, depth, mv, alpha, beta, true, Shifted).0;
      var truth := Fin(PlainEval(g, taboo, p, depth, mv, true));
      var rest := PlainFrom(g, taboo, p, depth, moves, k + 1, true);
      MaxStep(alpha0, alpha, beta, best, t, eval, truth, rest);
      MaxAssoc(t, truth, rest);
      var best' := Max(best, eval);
      var alpha' := Max(alpha, best');
      if !Le(beta, alpha') {
        MaxLoopSound(g, taboo, p, depth, moves, k + 1, alpha', beta, best', alpha0, Max(t, truth));
      }
    }
  }

  /** The minimizer's loop from move k on, the mirror image of `MaxLoopSound`. */
  lemma {:induction false} MinLoopSound(g: Shape, taboo: set<Move>, p: Position, depth: nat, moves: seq<Move>,
                                        k: nat, alpha: Ext, beta: Ext, best: Ext, beta0: Ext, t: Ext)
    requires ValidPosition(g, p) && depth >= 1 && k <= |moves| && OnEmptyCells(g, p.board, moves)
    requires Running(best, k, false)
    requires beta == Min(beta0, best) && Lt(alpha, beta)
    requires Le(best, t) && (Lt(best, beta0) ==> Le(t, best))
    ensures FailSoft(SearchLoop(g, taboo, p, depth, moves, k, alpha, beta, best, false, Shifted).0,
                     Min(t, PlainFrom(g, taboo, p, depth, moves, k, false)), alpha, beta0)
    decreases depth, 0, |moves| - k
  {
    if k < |moves| {
      var mv := moves[k];
      TryMoveSound(g, taboo, p, depth, mv, alpha, beta, false);
      var eval := TryMove(g, taboo, p, depth, mv, alpha, beta, false, Shifted).0;
      var truth := Fin(PlainEval(g, taboo, p, depth, mv, false));
      var rest := PlainFrom(g, taboo, p, depth, moves, k + 1, false);
      MinStep(beta0, alpha, beta, best, t, eval, truth, rest);
      MinAssoc(t, truth, rest);
      var best' := Min(best, eval);
      var beta' := Min(beta, best');
      if !Le(beta', alpha) {
        MinLoopSound(g, taboo, p, depth, moves, k + 1, alpha, beta', best', beta0, Min(t, truth));
      }
    }
  }

  /** From the root window (-inf, inf) the shifted search returns exactly the plain minimax value. */
  lemma CorrectedIsPlain(g: Shape, taboo: set<Move>, p: Position, depth: nat, maxPlayer: bool)
    requires ValidPosition(g, p)
    ensures Search(g, taboo, p, depth, NegInf, PosInf, maxPlayer, Shifted).0 == Fin(Plain(g, taboo, p, depth, maxPlayer))
  {
    ShiftedSound(g, taboo, p, depth, NegInf, PosInf, maxPlayer);
  }

  // ---------------------------------------------------------------------
  // Bounds on plain minimax and on shallow searches

  /** The maximizer's plain value from move k on is at least the evaluation of each move t >= k. */
  lemma {:induction false} MaxFromAbove(g: Shape, taboo: set<Move>, p: Position, depth: nat, moves: seq<Move>,
                                        k: nat, t: nat)
    requires ValidPosition(g, p) && depth >= 1 && k <= t < |moves| && OnEmptyCells(g, p.board, moves)
    ensures Le(Fin(PlainEval(g, taboo, p, depth, moves[t], true)), PlainFrom(g, taboo, p, depth, moves, k, true))
    decreases t - k
  {
    var e := Fin(PlainEval(g, taboo, p, depth, moves[k], true));
    var rest := PlainFrom(g, taboo, p, depth, moves, k + 1, true);
    MaxUpper(e, rest);
    if k < t {
      MaxFromAbove(g, taboo, p, depth, moves, k + 1, t);
      LeTrans(Fin(PlainEval(g, taboo, p, depth, moves[t], true)), rest, Max(e, rest));
    }
  }

  /** ... and at most any bound on the evaluations of the moves from k on. */
  lemma {:induction false} MaxFromBelow(g: Shape, taboo: set<Move>, p: Position, depth: nat, moves: seq<Move>,
                                        k: nat, c: real)
    requires ValidPosition(g, p) && depth >= 1 && k <= |moves| && OnEmptyCells(g, p.board, moves)
    requires forall t :: k <= t < |moves| ==> PlainEval(g, taboo, p, depth, moves[t], true) <= c
    ensures Le(PlainFrom(g, taboo, p, depth, moves, k, true), Fin(c))
    decreases |moves| - k
  {
    if k < |moves| {
      MaxFromBelow(g, taboo, p, depth, moves, k + 1, c);
    }
  }

  /** The minimizer's plain value from move k on is at most the evaluation of each move t >= k. */
  lemma {:induction false} MinFromBelow(g: Shape, taboo: set<Move>, p: Position, depth: nat, moves: seq<Move>,
                                        k: nat, t: nat)
    requires ValidPosition(g, p) && depth >= 1 && k <= t < |moves| && OnEmptyCells(g, p.board, moves)
    ensures Le(PlainFrom(g, taboo, p, depth, moves, k, false), Fin(PlainEval(g, taboo, p, depth, moves[t], false)))
    decreases t - k
  {
    var e := Fin(PlainEval(g, taboo, p, depth, moves[k], false));
    var rest := PlainFrom(g, taboo, p, depth, moves, k + 1, false);
    MinLower(e, rest);
    if k < t {
      MinFromBelow(g, taboo, p, depth, moves, k + 1, t);
      LeTrans(Min(e, rest), rest, Fin(PlainEval(g, taboo, p, depth, moves[t], false)));
    }
  }

  /** ... and at least any bound below the evaluations of the moves from k on. */
  lemma {:induction false} MinFromAbove(g: Shape, taboo: set<Move>, p: Position, depth: nat, moves: seq<Move>,
                                        k: nat, c: real)
    requires ValidPosition(g, p) && depth >= 1 && k <= |moves| && OnEmptyCells(g, p.board, moves)
    requires forall t :: k <= t < |moves| ==> c <= PlainEval(g, taboo, p, depth, moves[t], false)
    ensures Le(Fin(c), PlainFrom(g, taboo, p, depth, moves, k, false))
    decreases |moves| - k
  {
    if k < |moves| {
      MinFromAbove(g, taboo, p, depth, moves, k + 1, c);
    }
  }

  lemma MaxUpper(x: Ext, y: Ext)
    ensures Le(x, Max(x, y)) && Le(y, Max(x, y))
  {
  }

  lemma MinLower(x: Ext, y: Ext)
    ensures Le(Min(x, y), x) && Le(Min(x, y), y)
  {
  }

  lemma LeTrans(x: Ext, y: Ext, z: Ext)
    requires Le(x, y) && Le(y, z)
    ensures Le(x, z)
  {
  }

  /** A maximizer's node is worth at least the evaluation of each legal move. */
  lemma MaxNodeAtLeast(g: Shape, taboo: set<Move>, p: Position, depth: nat, mv: Move)
    requires ValidPosition(g, p) && depth >= 1 && IsLegal(g, p.board, taboo, mv)
    ensures PlainEval(g, taboo, p, depth, mv, true) <= Plain(g, taboo, p, depth, true)
  {
    var moves := GetAllLegalMoves(g, p.board, taboo);
    LegalOnEmptyCells(g, p.board, taboo);
    assert mv in moves;
    var t :| 0 <= t < |moves| && moves[t] == mv;
    MaxFromAbove(g, taboo, p, depth, moves, 0, t);
  }

  /** A maximizer's node is worth at most a non-negative bound on the evaluations of its legal moves. */
  lemma MaxNodeAtMost(g: Shape, taboo: set<Move>, p: Position, depth: nat, c: real)
    requires ValidPosition(g, p) && depth >= 1 && 0.0 <= c
    requires forall mv :: IsLegal(g, p.board, taboo, mv) ==> PlainEval(g, taboo, p, depth, mv, true) <= c
    ensures Plain(g, taboo, p, depth, true) <= c
  {
    var moves := GetAllLegalMoves(g, p.board, taboo);
    LegalOnEmptyCells(g, p.board, taboo);
    assert forall t :: 0 <= t < |moves| ==> moves[t] in moves;
    MaxFromBelow(g, taboo, p, depth, moves, 0, c);
  }

  /** A minimizer's node is worth at least a non-positive bound on the evaluations of its legal moves. */
  lemma MinNodeAtLeast(g: Shape, taboo: set<Move>, p: Position, depth: nat, c: real)
    requires ValidPosition(g, p) && depth >= 1 && c <= 0.0
    requires forall mv :: IsLegal(g, p.board, taboo, mv) ==> c <= PlainEval(g, taboo, p, depth, mv, false)
    ensures c <= Plain(g, taboo, p, depth, false)
  {
    var moves := GetAllLegalMoves(g, p.board, taboo);
    LegalOnEmptyCells(g, p.board, taboo);
    assert forall t :: 0 <= t < |moves| ==> moves[t] in moves;
    MinFromAbove(g, taboo, p, depth, moves, 0, c);
  }

  /** One ply above the horizon a move's evaluation is its score alone, whatever the window. */
  lemma LastPlyEval(g: Shape, taboo: set<Move>, p: Position, mv: Move, alpha: Ext, beta: Ext, maxPlayer: bool, w: Window)
    requires ValidPosition(g, p) && InGrid(g, mv.i, mv.j) && p.board[mv.i][mv.j] == 0
    ensures TryMove(g, taboo, p, 1, mv, alpha, beta, maxPlayer, w).0 == Fin(PlainEval(g, taboo, p, 1, mv, maxPlayer))
    ensures PlainEval(g, taboo, p, 1, mv, maxPlayer) == MoveAndCalculateScore(g, p, mv.i, mv.j, mv.value, maxPlayer).0
  {
  }

  /** The maximizer's loop one ply above the horizon never exceeds the plain value:
      a cut only stops it early. */
  lemma {:induction false} ShallowMaxLoop(g: Shape, taboo: set<Move>, p: Position, moves: seq<Move>, k: nat,
                                          alpha: Ext, beta: Ext, best: Ext, w: Window)
    requires ValidPosition(g, p) && k <= |moves| && OnEmptyCells(g, p.board, moves)
    requires Running(best, k, true)
    ensures Le(SearchLoop(g, taboo, p, 1, moves, k, alpha, beta, best, true, w).0,
               Max(best, PlainFrom(g, taboo, p, 1, moves, k, true)))
    decreases |moves| - k
  {
    if k < |moves| {
      var mv := moves[k];
      LastPlyEval(g, taboo, p, mv, alpha, beta, true, w);
      var eval := TryMove(g, taboo, p, 1, mv, alpha, beta, true, w).0;
      var rest := PlainFrom(g, taboo, p, 1, moves, k + 1, true);
      MaxAssoc(best, eval, rest);
      var best' := Max(best, eval);
      var alpha' := Max(alpha, best');
      if !Le(beta, alpha') {
        ShallowMaxLoop(g, taboo, p, moves, k + 1, alpha', beta, best', w);
      }
    }
  }

  /** So a maximizer's search of depth 1, on any window and as written or
      corrected, is at most the plain minimax value. */
  lemma ShallowMaxSearch(g: Shape, taboo: set<Move>, p: Position, alpha: Ext, beta: Ext, w: Window)
    requires ValidPosition(g, p)
    ensures Le(Search(g, taboo, p, 1, alpha, beta, true, w).0, Fin(Plain(g, taboo, p, 1, true)))
  {
    var moves := GetAllLegalMoves(g, p.board, taboo);
    if moves != [] {
      LegalOnEmptyCells(g, p.board, taboo);
      ShallowMaxLoop(g, taboo, p, moves, 0, alpha, beta, NegInf, w);
      var first := PlainFrom(g, taboo, p, 1, moves, 0, true);
      assert Max(NegInf, first) == first;
    }
  }
}
