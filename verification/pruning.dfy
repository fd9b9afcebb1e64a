/** The earlier search of Team6_A0/sudokuai_pruning.py: minimax with alpha-beta
    pruning over the bare board, scored by `calculate_move_score` (game points
    only, negated for the minimizer).

    Every move is placed by `calculate_move_score` and taken back with
    `board.put(i, j, 0)`; the model threads the board through the search and
    proves it comes back unchanged.  The window is updated with the move's
    evaluation plus `parent_move_score`, the score of the move that led to the
    node.

    The root call (`first_time`) records the first move of strictly largest
    evaluation in `best_move`.  The nested `minimax` declares `best_move` global,
    which binds the module's name, while `compute_best_move` proposes its own
    local `best_move`, assigned once to `moves[0]`.  `ProposalsAsWritten` is that
    loop; `ProposalsCorrected` proposes what the root recorded. */
module Pruning {
  import opened ExtReal
  import opened Grid
  import opened LegalMoves
  import opened Scoring
  import opened Results
  import opened AlphaBeta
  import opened Deepening

  /** What a call of `minimax` leaves behind: its value, the board, the module
      global `best_move`, and the evaluations of the moves its loop looked at. */
  datatype Outcome = Outcome(value: Ext, board: Board, best: Move, evals: seq<Ext>)

  predicate AllFinite(evals: seq<Ext>)
  {
    forall u :: 0 <= u < |evals| ==> evals[u].Fin?
  }

  /** `v` is one of the evaluations and the best of them for the player to move. */
  predicate BestOf(evals: seq<Ext>, v: Ext, maxPlayer: bool)
  {
    && v in evals
    && forall u :: 0 <= u < |evals| ==> if maxPlayer then Le(evals[u], v) else Le(v, evals[u])
  }

  /** The root's record: `moves[0]` before any move is evaluated, afterwards the
      first move of largest evaluation so far. */
  ghost predicate Tracks(evals: seq<Ext>, moves: seq<Move>, best: Move)
  {
    && 0 < |moves| && |evals| <= |moves|
    && (|evals| == 0 ==> best == moves[0])
    && (|evals| > 0 ==> exists t :: FirstMaximum(evals, t) && best == moves[t])
  }

  /** One more evaluation keeps the record: a strictly larger one becomes the
      best move, anything else leaves it alone. */
  lemma TrackStep(evals: seq<Ext>, moves: seq<Move>, best: Move, maxEval: Ext, e: Ext)
    requires Tracks(evals, moves, best) && |evals| < |moves| && e.Fin? && AllFinite(evals)
    requires Running(maxEval, |evals|, true) && (|evals| > 0 ==> BestOf(evals, maxEval, true))
    ensures Lt(maxEval, e) ==> Tracks(evals + [e], moves, moves[|evals|])
    ensures !Lt(maxEval, e) ==> Tracks(evals + [e], moves, best)
  {
    var all := evals + [e];
    if Lt(maxEval, e) {
      assert FirstMaximum(all, |evals|) by {
        forall u | 0 <= u < |evals|
          ensures Lt(all[u], e)
        {
          assert all[u] == evals[u];
        }
      }
    } else {
      var t :| FirstMaximum(evals, t) && best == moves[t];
      assert maxEval == evals[t] by {
        assert Le(evals[t], maxEval);
        var w :| 0 <= w < |evals| && evals[w] == maxEval;
        assert Le(evals[w], evals[t]);
      }
      assert FirstMaximum(all, t) by {
        forall u | 0 <= u < |all|
          ensures Le(all[u], all[t])
        {
          if u < |evals| {
            assert all[u] == evals[u];
          }
        }
        forall u | 0 <= u < t
          ensures Lt(all[u], all[t])
        {
          assert all[u] == evals[u];
        }
      }
    }
  }

  /** The variables of `minimax`'s loop: the window, the running best
      evaluation (`max_eval` or `min_eval`), the global `best_move`, and the
      evaluations looked at so far. */
  datatype LoopVars = LoopVars(alpha: Ext, beta: Ext, bestEval: Ext, best: Move, seen: seq<Ext>)

  /** The loop's bookkeeping after move `mv` evaluated to `eval`: the maximizer
      keeps a strictly larger evaluation (and, on the first-time call, its move)
      and raises alpha to the evaluation plus `parent_move_score`; the minimizer
      keeps the smaller evaluation and lowers beta likewise. */
  function Step(v: LoopVars, mv: Move, eval: real, parent: int, firstTime: bool, maxPlayer: bool): LoopVars
  {
    var e := Fin(eval);
    if maxPlayer then
      var improves := Lt(v.bestEval, e);
      LoopVars(Max(v.alpha, Fin(eval + parent as real)), v.beta,
               if improves then e else v.bestEval, if improves && firstTime then mv else v.best, v.seen + [e])
    else
      LoopVars(v.alpha, Min(v.beta, Fin(eval + parent as real)), Min(v.bestEval, e), v.best, v.seen + [e])
  }

  /** The evaluations before the k-th move, kept by the loop: finite, with the
      running best the best of them, and on the maximizer's first-time call the
      record of the first largest. */
  ghost predicate LoopState(v: LoopVars, moves: seq<Move>, k: nat, firstTime: bool, maxPlayer: bool)
  {
    && |v.seen| == k && k <= |moves| && AllFinite(v.seen) && Running(v.bestEval, k, maxPlayer)
    && (k > 0 ==> BestOf(v.seen, v.bestEval, maxPlayer))
    && (maxPlayer && firstTime ==> Tracks(v.seen, moves, v.best))
  }

  /** One step keeps the loop's state and records the evaluation. */
  lemma StepKeeps(v: LoopVars, moves: seq<Move>, k: nat, eval: real, parent: int, firstTime: bool, maxPlayer: bool)
    requires LoopState(v, moves, k, firstTime, maxPlayer) && k < |moves|
    ensures var v' := Step(v, moves[k], eval, parent, firstTime, maxPlayer);
      && LoopState(v', moves, k + 1, firstTime, maxPlayer)
      && v'.seen == v.seen + [Fin(eval)]
      && (!(maxPlayer && firstTime) ==> v'.best == v.best)
      && (maxPlayer ==> v'.beta == v.beta && (v.alpha != PosInf ==> v'.alpha != PosInf))
      && (!maxPlayer ==> v'.alpha == v.alpha && (v.beta != NegInf ==> v'.beta != NegInf))
  {
    var e := Fin(eval);
    var all := v.seen + [e];
    assert forall u :: 0 <= u < k ==> all[u] == v.seen[u];
    if maxPlayer && firstTime {
      TrackStep(v.seen, moves, v.best, v.bestEval, e);
    }
  }

  /** `minimax(board, depth, alpha, beta, parent_move_score, first_time, max_player)`:
      0 at depth 0 or without a legal move, otherwise the loop over the legal
      moves.  The board comes back unchanged, and only the maximizer's first-time
      call touches `best_move`. */
  function Minimax(g: Shape, taboo: set<Move>, b: Board, depth: nat, alpha: Ext, beta: Ext, parent: int,
                   firstTime: bool, maxPlayer: bool, best: Move): (r: Outcome)
    requires WellFormed(g, b)
    ensures r.board == b && r.value.Fin?
    ensures depth == 0 || GetAllLegalMoves(g, b, taboo) == [] ==> r.value == Fin(0.0) && r.evals == [] && r.best == best
    ensures !(maxPlayer && firstTime) ==> r.best == best
    decreases depth, 1, 0
  {
    if depth == 0 then Outcome(Fin(0.0), b, best, [])
    else
      var moves := GetAllLegalMoves(g, b, taboo);
      if moves == [] then Outcome(Fin(0.0), b, best, [])
      else
        LegalOnEmptyCells(g, b, taboo);
        var best0 := if maxPlayer && firstTime then moves[0] else best;
        MinimaxLoop(g, taboo, b, depth, moves, 0, parent, firstTime, maxPlayer,
                    LoopVars(alpha, beta, Worst(maxPlayer), best0, []))
  }

  /** The `for move in moves` loop of `minimax` from the k-th move on; it stops
      once beta <= alpha. */
  function MinimaxLoop(g: Shape, taboo: set<Move>, b: Board, depth: nat, moves: seq<Move>, k: nat,
                       parent: int, firstTime: bool, maxPlayer: bool, v: LoopVars): (r: Outcome)
    requires WellFormed(g, b) && depth >= 1 && k <= |moves| && OnEmptyCells(g, b, moves)
    requires Running(v.bestEval, k, maxPlayer)
    ensures r.board == b
    ensures (k < |moves| || v.bestEval.Fin?) ==> r.value.Fin?
    ensures !(maxPlayer && firstTime) ==> r.best == v.best
    decreases depth, 0, |moves| - k
  {
    if k == |moves| then Outcome(v.bestEval, b, v.best, v.seen)
    else
      var ev := Evaluate(g, taboo, b, depth, moves[k], v.alpha, v.beta, maxPlayer, v.best);
      var v' := Step(v, moves[k], ev.0, parent, firstTime, maxPlayer);
      if Le(v'.beta, v'.alpha) then Outcome(v'.bestEval, ev.1, v'.best, v'.seen)
      else MinimaxLoop(g, taboo, ev.1, depth, moves, k + 1, parent, firstTime, maxPlayer, v')
  }

  /** One iteration's move: `calculate_move_score` places it, the reply is
      searched with the move's score as `parent_move_score`, the evaluation is the
      score plus the reply's value, and `board.put(i, j, 0)` takes the move back. */
  function Evaluate(g: Shape, taboo: set<Move>, b: Board, depth: nat, mv: Move, alpha: Ext, beta: Ext,
                    maxPlayer: bool, best: Move): (r: (real, Board))
    requires WellFormed(g, b) && depth >= 1 && InGrid(g, mv.i, mv.j) && b[mv.i][mv.j] == 0
    ensures r.1 == b
    decreases depth, 0, 0
  {
    var (s, placed) := CalculateMoveScore(g, b, mv.i, mv.j, mv.value, maxPlayer);
    var child := Minimax(g, taboo, placed, depth - 1, alpha, beta, s, false, !maxPlayer, best);
    PutBack(g, b, mv.i, mv.j, mv.value);
    (s as real + child.value.v, Put(g, child.board, mv.i, mv.j, 0))
  }

  /** What the loop computes: the evaluations it looked at extend those seen
      before, its value is the best of them, the maximizer's first-time loop
      records the first move of largest evaluation, and a loop whose far bound
      is infinite (beta for the maximizer, alpha for the minimizer) looks at
      every move. */
  ghost predicate LoopResult(moves: seq<Move>, k: nat, v: LoopVars, firstTime: bool, maxPlayer: bool, r: Outcome)
  {
    && k <= |r.evals| <= |moves| && r.evals[..k] == v.seen && (k < |moves| ==> k < |r.evals|)
    && AllFinite(r.evals)
    && (0 < |r.evals| ==> BestOf(r.evals, r.value, maxPlayer))
    && (maxPlayer && firstTime ==> Tracks(r.evals, moves, r.best))
    && (maxPlayer && v.beta == PosInf && v.alpha != PosInf ==> |r.evals| == |moves|)
    && (!maxPlayer && v.alpha == NegInf && v.beta != NegInf ==> |r.evals| == |moves|)
  }

  /** A result with the properties from the next move on has them from this move on. */
  lemma ResultStep(moves: seq<Move>, k: nat, v: LoopVars, v': LoopVars, firstTime: bool, maxPlayer: bool, r: Outcome)
    requires k < |moves| && |v.seen| == k && |v'.seen| == k + 1 && v'.seen[..k] == v.seen
    requires maxPlayer ==> v'.beta == v.beta && (v.alpha != PosInf ==> v'.alpha != PosInf)
    requires !maxPlayer ==> v'.alpha == v.alpha && (v.beta != NegInf ==> v'.beta != NegInf)
    requires LoopResult(moves, k + 1, v', firstTime, maxPlayer, r)
    ensures LoopResult(moves, k, v, firstTime, maxPlayer, r)
  {
    assert r.evals[..k] == r.evals[..k + 1][..k];
  }

  /** The loop from the k-th move on has the properties `LoopResult` lists. */
  lemma {:induction false} LoopMeaning(g: Shape, taboo: set<Move>, b: Board, depth: nat, moves: seq<Move>, k: nat,
                                       parent: int, firstTime: bool, maxPlayer: bool, v: LoopVars)
    requires WellFormed(g, b) && depth >= 1 && k <= |moves| && OnEmptyCells(g, b, moves)
    requires LoopState(v, moves, k, firstTime, maxPlayer)
    ensures LoopResult(moves, k, v, firstTime, maxPlayer,
                       MinimaxLoop(g, taboo, b, depth, moves, k, parent, firstTime, maxPlayer, v))
    decreases |moves| - k, 1
  {
    if k < |moves| {
      LoopStepMeaning(g, taboo, b, depth, moves, k, parent, firstTime, maxPlayer, v);
    }
  }

  /** The inductive step of `LoopMeaning`: the k-th move either cuts the loop
      off or hands over to the next iteration. */
  lemma {:induction false} LoopStepMeaning(g: Shape, taboo: set<Move>, b: Board, depth: nat, moves: seq<Move>, k: nat,
                                           parent: int, firstTime: bool, maxPlayer: bool, v: LoopVars)
    requires WellFormed(g, b) && depth >= 1 && k < |moves| && OnEmptyCells(g, b, moves)
    requires LoopState(v, moves, k, firstTime, maxPlayer)
    ensures LoopResult(moves, k, v, firstTime, maxPlayer,
                       MinimaxLoop(g, taboo, b, depth, moves, k, parent, firstTime, maxPlayer, v))
    decreases |moves| - k, 0
  {
    var e := LoopUnfolds(g, taboo, b, depth, moves, k, parent, firstTime, maxPlayer, v);
    var v' := Step(v, moves[k], e, parent, firstTime, maxPlayer);
    StepKeeps(v, moves, k, e, parent, firstTime, maxPlayer);
    if Le(v'.beta, v'.alpha) {
      CutResult(moves, k, v, v', firstTime, maxPlayer, Outcome(v'.bestEval, b, v'.best, v'.seen));
    } else {
      LoopMeaning(g, taboo, b, depth, moves, k + 1, parent, firstTime, maxPlayer, v');
      ResultStep(moves, k, v, v', firstTime, maxPlayer,
                 MinimaxLoop(g, taboo, b, depth, moves, k + 1, parent, firstTime, maxPlayer, v'));
    }
  }

  /** One iteration of the loop: the k-th move is evaluated to some `e` on a
      board that comes back unchanged, then the loop either breaks or goes on. */
  lemma LoopUnfolds(g: Shape, taboo: set<Move>, b: Board, depth: nat, moves: seq<Move>, k: nat,
                    parent: int, firstTime: bool, maxPlayer: bool, v: LoopVars) returns (e: real)
    requires WellFormed(g, b) && depth >= 1 && k < |moves| && OnEmptyCells(g, b, moves)
    requires Running(v.bestEval, k, maxPlayer)
    ensures var v' := Step(v, moves[k], e, parent, firstTime, maxPlayer);
      MinimaxLoop(g, taboo, b, depth, moves, k, parent, firstTime, maxPlayer, v)
        == if Le(v'.beta, v'.alpha) then Outcome(v'.bestEval, b, v'.best, v'.seen)
           else MinimaxLoop(g, taboo, b, depth, moves, k + 1, parent, firstTime, maxPlayer, v')
  {
    e := Evaluate(g, taboo, b, depth, moves[k], v.alpha, v.beta, maxPlayer, v.best).0;
  }

  /** A loop cut off at the k-th move has looked at k + 1 evaluations; the cut
      cannot happen while the far bound is infinite. */
  lemma CutResult(moves: seq<Move>, k: nat, v: LoopVars, v': LoopVars, firstTime: bool, maxPlayer: bool, r: Outcome)
    requires k < |moves| && |v.seen| == k && LoopState(v', moves, k + 1, firstTime, maxPlayer)
    requires v'.seen[..k] == v.seen && Le(v'.beta, v'.alpha)
    requires maxPlayer ==> v'.beta == v.beta && (v.alpha != PosInf ==> v'.alpha != PosInf)
    requires !maxPlayer ==> v'.alpha == v.alpha && (v.beta != NegInf ==> v'.beta != NegInf)
    requires r == Outcome(v'.bestEval, r.board, v'.best, v'.seen)
    ensures LoopResult(moves, k, v, firstTime, maxPlayer, r)
  {
  }

  /** So a node above the horizon with a legal move returns the best of the
      evaluations it looked at, at least one and at most one per legal move. */
  lemma MinimaxMeaning(g: Shape, taboo: set<Move>, b: Board, depth: nat, alpha: Ext, beta: Ext, parent: int,
                       firstTime: bool, maxPlayer: bool, best: Move)
    requires WellFormed(g, b) && depth >= 1 && GetAllLegalMoves(g, b, taboo) != []
    ensures var r := Minimax(g, taboo, b, depth, alpha, beta, parent, firstTime, maxPlayer, best);
      var moves := GetAllLegalMoves(g, b, taboo);
      && 0 < |r.evals| <= |moves| && AllFinite(r.evals)
      && BestOf(r.evals, r.value, maxPlayer)
      && (maxPlayer && firstTime ==> Tracks(r.evals, moves, r.best))
      && (maxPlayer && beta == PosInf && alpha != PosInf ==> |r.evals| == |moves|)
      && (!maxPlayer && alpha == NegInf && beta != NegInf ==> |r.evals| == |moves|)
  {
    var moves := GetAllLegalMoves(g, b, taboo);
    LegalOnEmptyCells(g, b, taboo);
    var best0 := if maxPlayer && firstTime then moves[0] else best;
    var v := LoopVars(alpha, beta, Worst(maxPlayer), best0, []);
    LoopMeaning(g, taboo, b, depth, moves, 0, parent, firstTime, maxPlayer, v);
  }

  // ---------------------------------------------------------------------
  // The root

  /** The root call of one depth, `minimax(board, depth, -inf, inf, 0, True, True)`. */
  function RootSearch(g: Shape, taboo: set<Move>, b: Board, depth: nat, best: Move): (r: Outcome)
    requires WellFormed(g, b)
    ensures r.board == b
  {
    Minimax(g, taboo, b, depth, NegInf, PosInf, 0, true, true, best)
  }

  /** The root never cuts, so it evaluates every legal move, and it records the
      first move of largest evaluation, whose evaluation it returns. */
  lemma RootChoosesFirstMaximum(g: Shape, taboo: set<Move>, b: Board, depth: nat, best: Move)
    requires WellFormed(g, b) && depth >= 1 && GetAllLegalMoves(g, b, taboo) != []
    ensures var r := RootSearch(g, taboo, b, depth, best);
      var moves := GetAllLegalMoves(g, b, taboo);
      && |r.evals| == |moves| && AllFinite(r.evals)
      && exists t :: FirstMaximum(r.evals, t) && r.best == moves[t] && r.value == r.evals[t]
  {
    var moves := GetAllLegalMoves(g, b, taboo);
    var r := RootSearch(g, taboo, b, depth, best);
    MinimaxMeaning(g, taboo, b, depth, NegInf, PosInf, 0, true, true, best);
    var t :| FirstMaximum(r.evals, t) && r.best == moves[t];
    var w :| 0 <= w < |r.evals| && r.evals[w] == r.value;
    assert Le(r.evals[t], r.value) && Le(r.evals[w], r.evals[t]);
  }

  /** The root overwrites `best_move` before looking at it: its result does not
      depend on the value the global held before. */
  lemma RootIgnoresOldBest(g: Shape, taboo: set<Move>, b: Board, depth: nat, best: Move, other: Move)
    requires WellFormed(g, b) && depth >= 1 && GetAllLegalMoves(g, b, taboo) != []
    ensures RootSearch(g, taboo, b, depth, best) == RootSearch(g, taboo, b, depth, other)
  {
  }

  /** The root's choice at `depth`, whatever `best_move` held before. */
  function RootBest(g: Shape, taboo: set<Move>, b: Board, depth: nat): Move
    requires WellFormed(g, b) && depth >= 1 && GetAllLegalMoves(g, b, taboo) != []
  {
    RootSearch(g, taboo, b, depth, GetAllLegalMoves(g, b, taboo)[0]).best
  }

  // ---------------------------------------------------------------------
  // `compute_best_move`: the proposals

  /** The loop `for depth in range(2, 20)` as written, from `depth` on: each
      depth runs the root search, which updates the module global, then proposes
      the local `best_move`, which nothing has changed since `best_move = moves[0]`. */
  function DeepenAsWritten(g: Shape, taboo: set<Move>, b: Board, depth: nat, local: Move, global: Move): (r: seq<Move>)
    requires WellFormed(g, b) && 2 <= depth <= 20 && GetAllLegalMoves(g, b, taboo) != []
    ensures |r| == 20 - depth
    ensures forall d :: 0 <= d < |r| ==> r[d] == local
    decreases 20 - depth
  {
    if depth == 20 then []
    else
      var root := RootSearch(g, taboo, b, depth, global);
      [local] + DeepenAsWritten(g, taboo, root.board, depth + 1, local, root.best)
  }

  /** The same loop proposing what the root recorded. */
  function DeepenCorrected(g: Shape, taboo: set<Move>, b: Board, depth: nat, global: Move): (r: seq<Move>)
    requires WellFormed(g, b) && 2 <= depth <= 20 && GetAllLegalMoves(g, b, taboo) != []
    ensures |r| == 20 - depth
    ensures forall d :: 0 <= d < |r| ==> r[d] == RootBest(g, taboo, b, depth + d)
    decreases 20 - depth
  {
    if depth == 20 then []
    else
      var moves := GetAllLegalMoves(g, b, taboo);
      var root := RootSearch(g, taboo, b, depth, global);
      RootIgnoresOldBest(g, taboo, b, depth, global, moves[0]);
      var rest := DeepenCorrected(g, taboo, root.board, depth + 1, root.best);
      var r := [root.best] + rest;
      assert forall d :: 1 <= d < |r| ==> r[d] == rest[d - 1];
      r
  }

  /** `compute_best_move` of Team6_A0 as written: `moves[0]` is proposed, and then
      proposed again after each of the depths 2..19.  Without a legal move
      `moves[0]` raises, modelled as `None`. */
  function ProposalsAsWritten(g: Shape, taboo: set<Move>, b: Board): (r: Option<seq<Move>>)
    requires WellFormed(g, b)
    ensures r.None? <==> GetAllLegalMoves(g, b, taboo) == []
    ensures r.Some? ==> |r.value| == 19 && forall d :: 0 <= d < 19 ==> r.value[d] == GetAllLegalMoves(g, b, taboo)[0]
  {
    var moves := GetAllLegalMoves(g, b, taboo);
    if moves == [] then None
    else Some([moves[0]] + DeepenAsWritten(g, taboo, b, 2, moves[0], moves[0]))
  }

  /** The intended `compute_best_move`: after depth d the proposal is the first
      move of largest evaluation at depth d. */
  function ProposalsCorrected(g: Shape, taboo: set<Move>, b: Board): (r: Option<seq<Move>>)
    requires WellFormed(g, b)
    ensures r.None? <==> GetAllLegalMoves(g, b, taboo) == []
    ensures r.Some? ==>
      && |r.value| == 19 && r.value[0] == GetAllLegalMoves(g, b, taboo)[0]
      && forall d :: 1 <= d < 19 ==> r.value[d] == RootBest(g, taboo, b, d + 1)
  {
    var moves := GetAllLegalMoves(g, b, taboo);
    if moves == [] then None
    else Some([moves[0]] + DeepenCorrected(g, taboo, b, 2, moves[0]))
  }

  /** The two agree exactly when the first legal move is the root's choice at every depth. */
  lemma ProposalsAgreeIff(g: Shape, taboo: set<Move>, b: Board)
    requires WellFormed(g, b) && GetAllLegalMoves(g, b, taboo) != []
    ensures ProposalsAsWritten(g, taboo, b) == ProposalsCorrected(g, taboo, b) <==>
      forall d :: 2 <= d < 20 ==> RootBest(g, taboo, b, d) == GetAllLegalMoves(g, b, taboo)[0]
  {
    var moves := GetAllLegalMoves(g, b, taboo);
    var w := ProposalsAsWritten(g, taboo, b).value;
    var c := ProposalsCorrected(g, taboo, b).value;
    if forall d :: 2 <= d < 20 ==> RootBest(g, taboo, b, d) == moves[0] {
      assert forall d :: 0 <= d < 19 ==> w[d] == c[d] by {
        forall d | 0 <= d < 19
          ensures w[d] == c[d]
        {
          if d > 0 {
            assert c[d] == RootBest(g, taboo, b, d + 1);
          }
        }
      }
      assert w == c;
    } else {
      var d :| 2 <= d < 20 && RootBest(g, taboo, b, d) != moves[0];
      assert c[d - 1] != w[d - 1];
    }
  }
}
