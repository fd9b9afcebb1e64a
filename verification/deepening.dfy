/** The root of Team6_A2's `compute_best_move`: for every depth 1, 2, ..., 49 it
    evaluates each legal move as score plus the minimizer's reply searched from
    the window (-inf, inf), and proposes the first move of maximal evaluation.
    Proposals are returned as a list instead of being sent to `propose_move`. */
module Deepening {
  import opened ExtReal
  import opened Grid
  import opened RegionIndex
  import opened LegalMoves
  import opened Results
  import opened AlphaBeta
  import opened AlphaBetaProofs

  /** Index `t` holds the first maximum of `evals`: nothing is larger, everything before it is smaller. */
  predicate FirstMaximum(evals: seq<Ext>, t: int)
  {
    && 0 <= t < |evals|
    && (forall u :: 0 <= u < |evals| ==> Le(evals[u], evals[t]))
    && (forall u :: 0 <= u < t ==> Lt(evals[u], evals[t]))
  }

  /** What the root scan knows after looking at evals[..k]: `best_move` is
      moves[0] before the first look, and afterwards the first maximum so far,
      with `max_eval` its evaluation. */
  predicate ScanState(evals: seq<Ext>, k: nat, maxEval: Ext, best: nat)
  {
    && k <= |evals| && best < |evals|
    && (k == 0 ==> maxEval == NegInf && best == 0)
    && (k > 0 ==> && best < k && maxEval == evals[best]
                  && (forall u :: 0 <= u < k ==> Le(evals[u], maxEval))
                  && (forall u :: 0 <= u < best ==> Lt(evals[u], maxEval)))
  }

  /** A first look at the next evaluation keeps the scan's knowledge: a strictly
      larger one becomes the best, anything else leaves the best alone. */
  lemma ScanStep(evals: seq<Ext>, k: nat, maxEval: Ext, best: nat)
    requires ScanState(evals, k, maxEval, best) && k < |evals| && evals[k].Fin?
    ensures Lt(maxEval, evals[k]) ==> ScanState(evals, k + 1, evals[k], k)
    ensures !Lt(maxEval, evals[k]) ==> ScanState(evals, k + 1, maxEval, best)
  {
  }

  /** The root's evaluation of every move at `depth`. */
  function RootEvals(g: Shape, taboo: set<Move>, p: Position, depth: nat, moves: seq<Move>, w: Window): (r: seq<Ext>)
    requires ValidPosition(g, p) && depth >= 1 && OnEmptyCells(g, p.board, moves)
    ensures |r| == |moves|
    ensures forall u :: 0 <= u < |r| ==> r[u].Fin?
  {
    seq(|moves|, u requires 0 <= u < |moves| => TryMove(g, taboo, p, depth, moves[u], NegInf, PosInf, true, w).0)
  }

  /** The loop `for move in moves` of one depth at the root, from move k on: a move
      replaces `best_move` only when its evaluation is strictly larger than
      `max_eval`, so the result is the first move of maximal evaluation; every
      move is taken back, so the position is unchanged. */
  function RootLoop(g: Shape, taboo: set<Move>, p: Position, depth: nat, moves: seq<Move>, k: nat,
                    maxEval: Ext, best: nat, w: Window): (r: (nat, Position))
    requires ValidPosition(g, p) && depth >= 1 && OnEmptyCells(g, p.board, moves)
    requires ScanState(RootEvals(g, taboo, p, depth, moves, w), k, maxEval, best)
    ensures r.1 == p
    ensures FirstMaximum(RootEvals(g, taboo, p, depth, moves, w), r.0)
    decreases |moves| - k
  {
    var evals := RootEvals(g, taboo, p, depth, moves, w);
    if k == |moves| then (best, p)
    else
      var (eval, back) := TryMove(g, taboo, p, depth, moves[k], NegInf, PosInf, true, w);
      assert eval == evals[k];
      ScanStep(evals, k, maxEval, best);
      if Lt(maxEval, eval) then
        RootLoop(g, taboo, back, depth, moves, k + 1, eval, k, w)
      else
        RootLoop(g, taboo, back, depth, moves, k + 1, maxEval, best, w)
  }

  /** `mv` is a first move of maximal root evaluation at `depth`. */
  predicate ChosenAt(g: Shape, taboo: set<Move>, p: Position, depth: nat, moves: seq<Move>, w: Window, mv: Move)
    requires ValidPosition(g, p) && depth >= 1 && OnEmptyCells(g, p.board, moves)
  {
    exists t :: 0 <= t < |moves| && moves[t] == mv && FirstMaximum(RootEvals(g, taboo, p, depth, moves, w), t)
  }

  /** One depth of the iterative deepening: the move `RootLoop` settles on. */
  function BestAtDepth(g: Shape, taboo: set<Move>, p: Position, depth: nat, moves: seq<Move>, w: Window): (r: Move)
    requires ValidPosition(g, p) && depth >= 1 && OnEmptyCells(g, p.board, moves) && |moves| > 0
    ensures ChosenAt(g, taboo, p, depth, moves, w, r)
  {
    var t := RootLoop(g, taboo, p, depth, moves, 0, NegInf, 0, w).0;
    assert FirstMaximum(RootEvals(g, taboo, p, depth, moves, w), t);
    moves[t]
  }

  /** The proposals of one call: `moves[0]` first, then the choice of every depth 1..49. */
  function Deepen(g: Shape, taboo: set<Move>, p: Position, moves: seq<Move>, w: Window): (r: seq<Move>)
    requires ValidPosition(g, p) && OnEmptyCells(g, p.board, moves) && |moves| > 0
    ensures |r| == 50 && r[0] == moves[0]
    ensures forall d :: 1 <= d < 50 ==> ChosenAt(g, taboo, p, d, moves, w, r[d])
  {
    var later := seq(49, u requires 0 <= u < 49 => BestAtDepth(g, taboo, p, u + 1, moves, w));
    var r := [moves[0]] + later;
    assert forall d :: 1 <= d < 50 ==> ChosenAt(g, taboo, p, d, moves, w, r[d]) by {
      forall d | 1 <= d < 50
        ensures ChosenAt(g, taboo, p, d, moves, w, r[d])
      {
        assert r[d] == later[d - 1] == BestAtDepth(g, taboo, p, d, moves, w);
      }
    }
    r
  }

  /** `compute_best_move` of Team6_A2, on the board with freshly counted regions.
      Without a legal move `moves[0]` raises, modelled as `None`. */
  function ComputeBestMove(g: Shape, taboo: set<Move>, b: Board, w: Window): (r: Option<seq<Move>>)
    requires WellFormed(g, b)
    ensures r.None? <==> GetAllLegalMoves(g, b, taboo) == []
    ensures r.Some? ==>
      var moves := GetAllLegalMoves(g, b, taboo);
      var p := Position(b, TrueCounters(g, b));
      && |r.value| == 50 && r.value[0] == moves[0]
      && OnEmptyCells(g, b, moves)
      && forall d :: 1 <= d < 50 ==> ChosenAt(g, taboo, p, d, moves, w, r.value[d])
  {
    var moves := GetAllLegalMoves(g, b, taboo);
    if moves == [] then None
    else
      LegalOnEmptyCells(g, b, taboo);
      Some(Deepen(g, taboo, Position(b, TrueCounters(g, b)), moves, w))
  }

  /** With the shifted window the root evaluates every move by plain minimax:
      score plus the plain value of the best reply. */
  lemma CorrectedRootIsPlain(g: Shape, taboo: set<Move>, p: Position, depth: nat, moves: seq<Move>)
    requires ValidPosition(g, p) && depth >= 1 && OnEmptyCells(g, p.board, moves)
    ensures forall u :: 0 <= u < |moves| ==>
              RootEvals(g, taboo, p, depth, moves, Shifted)[u] == Fin(PlainEval(g, taboo, p, depth, moves[u], true))
  {
    forall u | 0 <= u < |moves|
      ensures RootEvals(g, taboo, p, depth, moves, Shifted)[u] == Fin(PlainEval(g, taboo, p, depth, moves[u], true))
    {
      var mv := moves[u];
      var (s, placed) := Scoring.MoveAndCalculateScore(g, p, mv.i, mv.j, mv.value, true);
      CorrectedIsPlain(g, taboo, placed, depth - 1, false);
      assert ChildWindow(NegInf, PosInf, s, Shifted) == (NegInf, PosInf);
    }
  }

  /** So the corrected root proposes, at every depth, a move whose score plus the
      plain minimax value of the reply is the largest among the legal moves. */
  lemma CorrectedChoiceIsPlainBest(g: Shape, taboo: set<Move>, p: Position, depth: nat, moves: seq<Move>, mv: Move)
    requires ValidPosition(g, p) && depth >= 1 && OnEmptyCells(g, p.board, moves)
    requires ChosenAt(g, taboo, p, depth, moves, Shifted, mv)
    ensures mv in moves && InGrid(g, mv.i, mv.j)
    ensures forall u :: 0 <= u < |moves| ==>
              PlainEval(g, taboo, p, depth, moves[u], true) <= PlainEval(g, taboo, p, depth, mv, true)
  {
    var t :| 0 <= t < |moves| && moves[t] == mv && FirstMaximum(RootEvals(g, taboo, p, depth, moves, Shifted), t);
    CorrectedRootIsPlain(g, taboo, p, depth, moves);
  }
}
