/** The depth-limited minimax with alpha-beta pruning of Team6_A2/sudokuai.py
    (`minimax` and the iterative-deepening loop of `compute_best_move`).

    The search mutates one shared board and its counters: every move is placed
    with `move_and_calculate_score` and taken back with `move_back`.  The model
    threads that position through the search and proves it comes back unchanged.

    The source hands the child the window (alpha, beta) unchanged, although the
    child's value is later added to the move's score.  `Window.AsWritten` is that
    search; `Window.Shifted` hands the child (alpha - score, beta - score), and
    only that one is proved to agree with plain minimax (`Plain`). */
module AlphaBeta {
  import opened ExtReal
  import opened Grid
  import opened RegionIndex
  import opened LegalMoves
  import opened Scoring

  /** The window the child search receives. */
  datatype Window = AsWritten | Shifted

  /** Moves the search may place and take back: numbers on empty cells. */
  predicate OnEmptyCells(g: Shape, b: Board, moves: seq<Move>)
    requires WellFormed(g, b)
  {
    forall k :: 0 <= k < |moves| ==>
      InGrid(g, moves[k].i, moves[k].j) && b[moves[k].i][moves[k].j] == 0 && moves[k].value != 0
  }

  lemma LegalOnEmptyCells(g: Shape, b: Board, taboo: set<Move>)
    requires WellFormed(g, b)
    ensures OnEmptyCells(g, b, GetAllLegalMoves(g, b, taboo))
  {
    var moves := GetAllLegalMoves(g, b, taboo);
    forall k | 0 <= k < |moves|
      ensures InGrid(g, moves[k].i, moves[k].j) && b[moves[k].i][moves[k].j] == 0 && moves[k].value != 0
    {
      assert moves[k] in moves;
    }
  }

  /** The starting value of the running best: `-inf` for the maximizer, `inf` for the minimizer. */
  function Worst(maxPlayer: bool): Ext
  {
    if maxPlayer then NegInf else PosInf
  }

  /** The running best of a loop: the starting value before the first move, finite after. */
  predicate Running(best: Ext, k: nat, maxPlayer: bool)
  {
    if k == 0 then best == Worst(maxPlayer) else best.Fin?
  }

  /** `minimax(board, depth, alpha, beta, max_player)`.  The result is the value
      and the position after the call, which is the position before it. */
  function Search(g: Shape, taboo: set<Move>, p: Position, depth: nat, alpha: Ext, beta: Ext,
                  maxPlayer: bool, w: Window): (r: (Ext, Position))
    requires ValidPosition(g, p)
    ensures r.1 == p
    ensures r.0.Fin?
    ensures depth == 0 || GetAllLegalMoves(g, p.board, taboo) == [] ==> r.0 == Fin(0.0)
    decreases depth, 1, 0
  {
    if depth == 0 then (Fin(0.0), p)
    else
      var moves := GetAllLegalMoves(g, p.board, taboo);
      if moves == [] then (Fin(0.0), p)
      else
        LegalOnEmptyCells(g, p.board, taboo);
        SearchLoop(g, taboo, p, depth, moves, 0, alpha, beta, Worst(maxPlayer), maxPlayer, w)
  }

  /** The child window of move score `s`. */
  function ChildWindow(alpha: Ext, beta: Ext, s: real, w: Window): (Ext, Ext)
  {
    match w
    case AsWritten => (alpha, beta)
    case Shifted => (Sub(alpha, s), Sub(beta, s))
  }

  /** The `for move in moves` loop of `minimax` from the k-th move on, with the
      current window and running best. */
  function SearchLoop(g: Shape, taboo: set<Move>, p: Position, depth: nat, moves: seq<Move>, k: nat,
                      alpha: Ext, beta: Ext, best: Ext, maxPlayer: bool, w: Window): (r: (Ext, Position))
    requires ValidPosition(g, p) && depth >= 1 && k <= |moves| && OnEmptyCells(g, p.board, moves)
    requires Running(best, k, maxPlayer)
    ensures r.1 == p
    ensures (k < |moves| || best.Fin?) ==> r.0.Fin?
    decreases depth, 0, |moves| - k
  {
    if k == |moves| then (best, p)
    else
      var (eval, back) := TryMove(g, taboo, p, depth, moves[k], alpha, beta, maxPlayer, w);
      var best' := if maxPlayer then Max(best, eval) else Min(best, eval);
      var alpha' := if maxPlayer then Max(alpha, best') else alpha;
      var beta' := if maxPlayer then beta else Min(beta, best');
      if Le(beta', alpha') then (best', back)
      else SearchLoop(g, taboo, back, depth, moves, k + 1, alpha', beta', best', maxPlayer, w)
  }

  /** One iteration's move: `move_and_calculate_score`, the search of the reply,
      the evaluation `cur_move_score + minimax(...)`, and `move_back`. */
  function TryMove(g: Shape, taboo: set<Move>, p: Position, depth: nat, mv: Move,
                   alpha: Ext, beta: Ext, maxPlayer: bool, w: Window): (r: (Ext, Position))
    requires ValidPosition(g, p) && depth >= 1 && InGrid(g, mv.i, mv.j) && p.board[mv.i][mv.j] == 0
    ensures r.1 == p
    ensures r.0.Fin?
    decreases depth, 0, 0
  {
    var (s, placed) := MoveAndCalculateScore(g, p, mv.i, mv.j, mv.value, maxPlayer);
    var (lo, hi) := ChildWindow(alpha, beta, s, w);
    var (child, after) := Search(g, taboo, placed, depth - 1, lo, hi, !maxPlayer, w);
    MoveBackAfterPlace(g, p, mv.i, mv.j, mv.value);
    (Add(s, child), MoveBack(g, after, mv.i, mv.j))
  }

  // ---------------------------------------------------------------------
  // The reference: minimax without pruning

  /** Plain minimax over the same moves and scores: 0 at depth 0 or without a
      legal move, otherwise the best over the moves of score plus the value of
      the reply. */
  function Plain(g: Shape, taboo: set<Move>, p: Position, depth: nat, maxPlayer: bool): real
    requires ValidPosition(g, p)
    decreases depth, 1, 0
  {
    if depth == 0 then 0.0
    else
      var moves := GetAllLegalMoves(g, p.board, taboo);
      if moves == [] then 0.0
      else
        LegalOnEmptyCells(g, p.board, taboo);
        PlainFrom(g, taboo, p, depth, moves, 0, maxPlayer).v
  }

  /** The best of moves k, k + 1, ... by plain minimax (`Worst` when there are none). */
  function PlainFrom(g: Shape, taboo: set<Move>, p: Position, depth: nat, moves: seq<Move>, k: nat,
                     maxPlayer: bool): (r: Ext)
    requires ValidPosition(g, p) && depth >= 1 && k <= |moves| && OnEmptyCells(g, p.board, moves)
    ensures k < |moves| ==> r.Fin?
    decreases depth, 0, |moves| - k
  {
    if k == |moves| then Worst(maxPlayer)
    else
      var e := Fin(PlainEval(g, taboo, p, depth, moves[k], maxPlayer));
      if maxPlayer then Max(e, PlainFrom(g, taboo, p, depth, moves, k + 1, maxPlayer))
      else Min(e, PlainFrom(g, taboo, p, depth, moves, k + 1, maxPlayer))
  }

  /** Score of one move plus the plain value of the reply. */
  function PlainEval(g: Shape, taboo: set<Move>, p: Position, depth: nat, mv: Move, maxPlayer: bool): real
    requires ValidPosition(g, p) && depth >= 1 && InGrid(g, mv.i, mv.j)
    decreases depth, 0, 0
  {
    var (s, placed) := MoveAndCalculateScore(g, p, mv.i, mv.j, mv.value, maxPlayer);
    s + Plain(g, taboo, placed, depth - 1, !maxPlayer)
  }
}
