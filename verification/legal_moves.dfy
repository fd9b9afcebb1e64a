/** The brute-force legal-move generator `get_all_legal_moves`
    (Team6_A2/sudokuai.py and, identically, Team6_A0/sudokuai_pruning.py). */
module LegalMoves {
  import opened Grid

  /** `Move(i, j, value)`; a `TabooMove` with the same triple compares equal to it. */
  datatype Move = Move(i: int, j: int, value: int)

  /** The game's rule for a legal move: an empty cell, a number 1..N that is not
      taboo and appears nowhere in the cell's row, column or block. */
  predicate IsLegal(g: Shape, b: Board, taboo: set<Move>, mv: Move)
    requires WellFormed(g, b)
  {
    && InGrid(g, mv.i, mv.j)
    && b[mv.i][mv.j] == 0
    && 1 <= mv.value <= g.N()
    && mv !in taboo
    && (forall k :: 0 <= k < g.N() ==> b[mv.i][k] != mv.value)
    && (forall l :: 0 <= l < g.N() ==> b[l][mv.j] != mv.value)
    && (forall l, k :: 0 <= l < g.N() && 0 <= k < g.N() && InRect(CornerRect(g, mv.i, mv.j), l, k) ==> b[l][k] != mv.value)
  }

  /** Generator order: by row, then column, then value. */
  predicate Before(a: Move, b: Move)
  {
    a.i < b.i || (a.i == b.i && (a.j < b.j || (a.j == b.j && a.value < b.value)))
  }

  /** Strictly increasing in generator order (hence also free of repeats). */
  predicate Increasing(s: seq<Move>)
  {
    forall p, q :: 0 <= p < q < |s| ==> Before(s[p], s[q])
  }

  lemma IncreasingConcat(a: seq<Move>, b: seq<Move>)
    requires Increasing(a) && Increasing(b)
    requires forall x, y :: x in a && y in b ==> Before(x, y)
    ensures Increasing(a + b)
  {
    forall p, q | 0 <= p < q < |a + b|
      ensures Before((a + b)[p], (a + b)[q])
    {
      if q < |a| {
      } else if p >= |a| {
        assert (a + b)[p] == b[p - |a|] && (a + b)[q] == b[q - |a|];
      } else {
        assert (a + b)[p] in a && (a + b)[q] in b;
      }
    }
  }

  /** The scans of the generator for one candidate (i, j, value): the cell is empty,
      the triple is not taboo, and the row, column and block scans do not find `value`. */
  predicate Admissible(g: Shape, b: Board, taboo: set<Move>, i: int, j: int, v: int)
    requires WellFormed(g, b) && InGrid(g, i, j)
  {
    CornerFits(g, i, j);
    && b[i][j] == 0
    && Move(i, j, v) !in taboo
    && v !in RectVals(g, b, RowRect(g, i))
    && v !in RectVals(g, b, ColRect(g, j))
    && v !in RectVals(g, b, CornerRect(g, i, j))
  }

  /** The row scan finds `v` exactly when some cell of row i holds it. */
  lemma RowScan(g: Shape, b: Board, i: int, v: int)
    requires WellFormed(g, b) && 0 <= i < g.N()
    ensures v in RectVals(g, b, RowRect(g, i)) <==> !(forall k :: 0 <= k < g.N() ==> b[i][k] != v)
  {
    InRectVals(g, b, RowRect(g, i), v);
    if v in RectVals(g, b, RowRect(g, i)) {
      var l, k :| InRect(RowRect(g, i), l, k) && b[l][k] == v;
      assert b[i][k] == v;
    }
    if !(forall k :: 0 <= k < g.N() ==> b[i][k] != v) {
      var k :| 0 <= k < g.N() && b[i][k] == v;
      assert InRect(RowRect(g, i), i, k);
    }
  }

  /** The column scan finds `v` exactly when some cell of column j holds it. */
  lemma ColScan(g: Shape, b: Board, j: int, v: int)
    requires WellFormed(g, b) && 0 <= j < g.N()
    ensures v in RectVals(g, b, ColRect(g, j)) <==> !(forall l :: 0 <= l < g.N() ==> b[l][j] != v)
  {
    InRectVals(g, b, ColRect(g, j), v);
    if v in RectVals(g, b, ColRect(g, j)) {
      var l, k :| InRect(ColRect(g, j), l, k) && b[l][k] == v;
      assert b[l][j] == v;
    }
    if !(forall l :: 0 <= l < g.N() ==> b[l][j] != v) {
      var l :| 0 <= l < g.N() && b[l][j] == v;
      assert InRect(ColRect(g, j), l, j);
    }
  }

  /** The block scan finds `v` exactly when some cell of the block of (i, j) holds it. */
  lemma BlockScan(g: Shape, b: Board, i: int, j: int, v: int)
    requires WellFormed(g, b) && InGrid(g, i, j)
    ensures Fits(g, CornerRect(g, i, j))
    ensures v in RectVals(g, b, CornerRect(g, i, j)) <==>
      !(forall l, k :: 0 <= l < g.N() && 0 <= k < g.N() && InRect(CornerRect(g, i, j), l, k) ==> b[l][k] != v)
  {
    CornerFits(g, i, j);
    InRectVals(g, b, CornerRect(g, i, j), v);
  }

  /** The scans decide legality exactly. */
  lemma AdmissibleIsLegal(g: Shape, b: Board, taboo: set<Move>, i: int, j: int, v: int)
    requires WellFormed(g, b) && InGrid(g, i, j) && 1 <= v <= g.N()
    ensures Admissible(g, b, taboo, i, j, v) <==> IsLegal(g, b, taboo, Move(i, j, v))
  {
    RowScan(g, b, i, v);
    ColScan(g, b, j, v);
    BlockScan(g, b, i, j, v);
  }

  /** Candidates (i, j, v), (i, j, v + 1), ..., (i, j, N) that pass the scans. */
  function CellMoves(g: Shape, b: Board, taboo: set<Move>, i: int, j: int, v: int): (r: seq<Move>)
    requires WellFormed(g, b) && InGrid(g, i, j) && 1 <= v
    ensures forall mv :: mv in r <==> mv.i == i && mv.j == j && v <= mv.value && IsLegal(g, b, taboo, mv)
    ensures Increasing(r)
    decreases g.N() + 1 - v
  {
    if v > g.N() then []
    else
      AdmissibleIsLegal(g, b, taboo, i, j, v);
      var rest := CellMoves(g, b, taboo, i, j, v + 1);
      var here := if Admissible(g, b, taboo, i, j, v) then [Move(i, j, v)] else [];
      IncreasingConcat(here, rest);
      here + rest
  }

  /** Candidates on cells (i, j), (i, j + 1), ..., (i, N - 1). */
  function RowMoves(g: Shape, b: Board, taboo: set<Move>, i: int, j: int): (r: seq<Move>)
    requires WellFormed(g, b) && 0 <= i < g.N() && 0 <= j
    ensures forall mv :: mv in r <==> mv.i == i && j <= mv.j && IsLegal(g, b, taboo, mv)
    ensures Increasing(r)
    decreases g.N() - j
  {
    if j >= g.N() then []
    else
      var here := CellMoves(g, b, taboo, i, j, 1);
      var rest := RowMoves(g, b, taboo, i, j + 1);
      IncreasingConcat(here, rest);
      here + rest
  }

  /** Candidates on rows i, i + 1, ..., N - 1. */
  function BoardMoves(g: Shape, b: Board, taboo: set<Move>, i: int): (r: seq<Move>)
    requires WellFormed(g, b) && 0 <= i
    ensures forall mv :: mv in r <==> i <= mv.i && IsLegal(g, b, taboo, mv)
    ensures Increasing(r)
    decreases g.N() - i
  {
    if i >= g.N() then []
    else
      var here := RowMoves(g, b, taboo, i, 0);
      var rest := BoardMoves(g, b, taboo, i + 1);
      IncreasingConcat(here, rest);
      here + rest
  }

  /** `get_all_legal_moves(board)`: every legal move exactly once, in generator order. */
  function GetAllLegalMoves(g: Shape, b: Board, taboo: set<Move>): (r: seq<Move>)
    requires WellFormed(g, b)
    ensures forall mv :: mv in r <==> IsLegal(g, b, taboo, mv)
    ensures Increasing(r)
  {
    BoardMoves(g, b, taboo, 0)
  }

  /** The head of an increasing list comes before all its other members. */
  lemma HeadIsLeast(a: seq<Move>)
    requires Increasing(a) && a != []
    ensures forall x :: x in a ==> x == a[0] || Before(a[0], x)
  {
    forall x | x in a
      ensures x == a[0] || Before(a[0], x)
    {
      var p :| 0 <= p < |a| && a[p] == x;
    }
  }

  /** An increasing list is determined by its members. */
  lemma {:induction false} IncreasingUnique(a: seq<Move>, b: seq<Move>)
    requires Increasing(a) && Increasing(b)
    requires forall x :: x in a <==> x in b
    ensures a == b
    decreases |a|
  {
    if a != [] {
      assert a[0] in a;
      HeadIsLeast(a);
    }
    if b != [] {
      assert b[0] in b;
      HeadIsLeast(b);
    }
    if a != [] && b != [] {
      assert a[0] == b[0];
      forall x
        ensures x in a[1..] <==> x in b[1..]
      {
        if x in a[1..] {
          var p :| 1 <= p < |a| && a[p] == x;
          assert Before(a[0], a[p]);
          assert x in b;
          var q :| 0 <= q < |b| && b[q] == x;
          assert q != 0;
        }
        if x in b[1..] {
          var q :| 1 <= q < |b| && b[q] == x;
          assert Before(b[0], b[q]);
          assert x in a;
          var p :| 0 <= p < |a| && a[p] == x;
          if p == 0 {
            assert Before(b[0], b[q]);
          }
        }
      }
      IncreasingUnique(a[1..], b[1..]);
      assert a == [a[0]] + a[1..] && b == [b[0]] + b[1..];
    }
  }

  /** The generator lists the legal moves of any board in exactly one order:
      a list is the generator's output iff it is increasing and holds exactly the legal moves. */
  lemma GeneratorOrder(g: Shape, b: Board, taboo: set<Move>, s: seq<Move>)
    requires WellFormed(g, b)
    requires Increasing(s) && forall mv :: mv in s <==> IsLegal(g, b, taboo, mv)
    ensures GetAllLegalMoves(g, b, taboo) == s
  {
    IncreasingUnique(GetAllLegalMoves(g, b, taboo), s);
  }

  /** When the top-left cell may take a 1, that is the first move generated. */
  lemma FirstLegalMove(g: Shape, b: Board, taboo: set<Move>)
    requires WellFormed(g, b) && IsLegal(g, b, taboo, Move(0, 0, 1))
    ensures GetAllLegalMoves(g, b, taboo) != [] && GetAllLegalMoves(g, b, taboo)[0] == Move(0, 0, 1)
  {
    var moves := GetAllLegalMoves(g, b, taboo);
    assert Move(0, 0, 1) in moves;
    var t :| 0 <= t < |moves| && moves[t] == Move(0, 0, 1);
    if t > 0 {
      assert Before(moves[0], moves[t]);
      assert moves[0] in moves;
    }
  }
}
