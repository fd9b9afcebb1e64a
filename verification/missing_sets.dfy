/** The missing-value-set generator `get_initial_legal_moves` of
    Team6_A3/sudokuai.py: per row, column and block, the set of numbers
    1..N not yet placed, intersected per empty cell. */
module MissingSets {
  import opened Grid
  import opened Results
  import opened LegalMoves

  /** The numbers 1..n, built the way `range(1, n + 1)` enumerates them. */
  function UpTo(n: int): (r: set<int>)
    ensures forall v :: v in r <==> 1 <= v <= n
    decreases if n < 0 then 0 else n
  {
    if n <= 0 then {} else UpTo(n - 1) + {n}
  }

  /** `set(num for num in range(1, N + 1))`. */
  function AllNumbers(g: Shape): set<int>
  {
    UpTo(g.N())
  }

  /** The numbers read from a region (its non-zero values). */
  function Placed(vals: seq<int>): set<int>
  {
    set x | x in vals && x != 0
  }

  /** A reading `set.remove` can consume: every placed number is in `numbers`
      and no placed number occurs twice. */
  predicate Removable(numbers: set<int>, vals: seq<int>)
  {
    && (forall p :: 0 <= p < |vals| && vals[p] != 0 ==> vals[p] in numbers)
    && (forall p, q :: 0 <= p < q < |vals| && vals[p] != 0 ==> vals[p] != vals[q])
  }

  /** The inner loop over a region: skip empty cells, `numbers.remove(val)` otherwise.
      A value that is no longer (or never was) in the set raises `KeyError`. */
  function RemoveEach(numbers: set<int>, vals: seq<int>): (r: Result<set<int>>)
    ensures r.Success? <==> Removable(numbers, vals)
    ensures r.Success? ==> r.value == numbers - Placed(vals)
    decreases |vals|
  {
    if vals == [] then Success(numbers)
    else
      var pre, x := vals[..|vals| - 1], vals[|vals| - 1];
      assert vals == pre + [x];
      match RemoveEach(numbers, pre)
      case Failure(e) =>
        assert !Removable(numbers, vals) by {
          if Removable(numbers, vals) {
            assert Removable(numbers, pre);
          }
        }
        Failure(e)
      case Success(s) =>
        assert Placed(vals) == Placed(pre) + (if x == 0 then {} else {x});
        if x == 0 then Success(s)
        else if x in s then
          assert Removable(numbers, vals) by {
            forall p | 0 <= p < |pre| && vals[p] != 0
              ensures vals[p] != x
            {
              assert vals[p] in Placed(pre);
            }
          }
          Success(s - {x})
        else
          assert !Removable(numbers, vals) by {
            if x in numbers {
              assert x in Placed(pre);
              var p :| 0 <= p < |pre| && pre[p] == x;
              assert vals[p] == vals[|vals| - 1];
            }
          }
          Failure(KeyError(x))
  }

  /** The missing numbers of each of a list of regions, built in order; the
      first region whose reading cannot be removed raises. */
  function MissingEach(g: Shape, b: Board, rects: seq<Rect>): (r: Result<seq<set<int>>>)
    requires WellFormed(g, b)
    requires forall k :: 0 <= k < |rects| ==> Fits(g, rects[k])
    ensures r.Success? <==> forall k :: 0 <= k < |rects| ==> Removable(AllNumbers(g), RectVals(g, b, rects[k]))
    ensures r.Success? ==> |r.value| == |rects|
    ensures r.Success? ==> forall k :: 0 <= k < |rects| ==>
              r.value[k] == AllNumbers(g) - Placed(RectVals(g, b, rects[k]))
    decreases |rects|
  {
    if rects == [] then Success([])
    else
      var pre := rects[..|rects| - 1];
      var sets :- MissingEach(g, b, pre);
      var last :- RemoveEach(AllNumbers(g), RectVals(g, b, rects[|rects| - 1]));
      Success(sets + [last])
  }

  function Rows(g: Shape): (r: seq<Rect>)
    ensures |r| == g.N() && forall k :: 0 <= k < g.N() ==> r[k] == RowRect(g, k)
  {
    seq(g.N(), k => RowRect(g, k))
  }

  function Cols(g: Shape): (r: seq<Rect>)
    ensures |r| == g.N() && forall k :: 0 <= k < g.N() ==> r[k] == ColRect(g, k)
  {
    seq(g.N(), k => ColRect(g, k))
  }

  lemma AllBlocksFit(g: Shape)
    requires g.Valid()
    ensures forall k :: 0 <= k < g.N() ==> Fits(g, BlockRect(g, k))
  {
    forall k | 0 <= k < g.N()
      ensures Fits(g, BlockRect(g, k))
    {
      BlockFits(g, k);
    }
  }

  lemma AllCellsHaveBlocks(g: Shape)
    requires g.Valid()
    ensures forall x, y :: InGrid(g, x, y) ==> 0 <= BlockOf(g, x, y) < g.N()
  {
    forall x, y | InGrid(g, x, y)
      ensures 0 <= BlockOf(g, x, y) < g.N()
    {
      BlockOfCell(g, x, y);
    }
  }

  /** Blocks in the source's numbering: left to right, then top to bottom. */
  function Blocks(g: Shape): (r: seq<Rect>)
    requires g.Valid()
    ensures |r| == g.N() && forall k :: 0 <= k < g.N() ==> r[k] == BlockRect(g, k) && Fits(g, r[k])
  {
    AllBlocksFit(g);
    seq(g.N(), k => BlockRect(g, k))
  }

  /** No row, column or block repeats a number, and all numbers are in 1..N:
      the boards on which the construction does not raise. */
  predicate NoClash(g: Shape, b: Board)
    requires WellFormed(g, b)
  {
    forall k :: 0 <= k < g.N() ==>
      && Removable(AllNumbers(g), RectVals(g, b, RowRect(g, k)))
      && Removable(AllNumbers(g), RectVals(g, b, ColRect(g, k)))
      && (BlockFits(g, k); Removable(AllNumbers(g), RectVals(g, b, BlockRect(g, k))))
  }

  /** `positions_of_empty_cells`: the set of cells that hold 0.  The row, column
      and block scans each add such cells into this one set. */
  function EmptyPositions(g: Shape, b: Board): (r: set<(int, int)>)
    requires WellFormed(g, b)
  {
    set i, j | 0 <= i < g.N() && 0 <= j < g.N() && b[i][j] == 0 :: (i, j)
  }

  /** A number is missing from a region iff it is in 1..N and the region's reading lacks it. */
  lemma MissingIff(g: Shape, vals: seq<int>, v: int)
    ensures v in AllNumbers(g) - Placed(vals) <==> 1 <= v <= g.N() && v !in vals
  {
  }

  /** The final loop of the construction: for every empty cell, the candidates in
      all three missing sets that are not taboo. */
  function Combine(g: Shape, b: Board, taboo: set<Move>, rows: seq<set<int>>, cols: seq<set<int>>,
                   blocks: seq<set<int>>): set<Move>
    requires WellFormed(g, b) && |rows| == g.N() && |cols| == g.N() && |blocks| == g.N()
  {
    AllCellsHaveBlocks(g);
    set x, y, v | 0 <= x < g.N() && 0 <= y < g.N() && (x, y) in EmptyPositions(g, b)
                  && v in rows[x] * cols[y] * blocks[BlockOf(g, x, y)]
                  && Move(x, y, v) !in taboo :: Move(x, y, v)
  }

  /** With the three lists of missing sets right, the combination is exactly the legal moves. */
  lemma CombineIsLegal(g: Shape, b: Board, taboo: set<Move>, rows: seq<set<int>>, cols: seq<set<int>>,
                       blocks: seq<set<int>>)
    requires WellFormed(g, b) && |rows| == g.N() && |cols| == g.N() && |blocks| == g.N()
    requires forall k :: 0 <= k < g.N() ==> rows[k] == AllNumbers(g) - Placed(RectVals(g, b, RowRect(g, k)))
    requires forall k :: 0 <= k < g.N() ==> cols[k] == AllNumbers(g) - Placed(RectVals(g, b, ColRect(g, k)))
    requires forall k :: 0 <= k < g.N() ==>
               blocks[k] == (BlockFits(g, k); AllNumbers(g) - Placed(RectVals(g, b, BlockRect(g, k))))
    ensures forall mv :: mv in Combine(g, b, taboo, rows, cols, blocks) <==> IsLegal(g, b, taboo, mv)
  {
    forall mv
      ensures mv in Combine(g, b, taboo, rows, cols, blocks) <==> IsLegal(g, b, taboo, mv)
    {
      if InGrid(g, mv.i, mv.j) {
        var x, y, v := mv.i, mv.j, mv.value;
        BlockOfCell(g, x, y);
        var k := BlockOf(g, x, y);
        BlockFits(g, k);
        MissingIff(g, RectVals(g, b, RowRect(g, x)), v);
        MissingIff(g, RectVals(g, b, ColRect(g, y)), v);
        MissingIff(g, RectVals(g, b, BlockRect(g, k)), v);
        if 1 <= v <= g.N() {
          AdmissibleIsLegal(g, b, taboo, x, y, v);
        }
        if mv in Combine(g, b, taboo, rows, cols, blocks) {
          assert v in rows[x] * cols[y] * blocks[k];
        }
        if IsLegal(g, b, taboo, mv) {
          assert (x, y) in EmptyPositions(g, b);
        }
      }
    }
  }

  /** `get_initial_legal_moves`: for every empty cell, the intersection of its row's,
      column's and block's missing numbers, minus the taboo triples.  The source
      returns a list in set-iteration order; the model returns the set.  It raises
      exactly on boards with a repeated or out-of-range number in some region, and
      otherwise holds the same moves as the brute-force generator. */
  function GetInitialLegalMoves(g: Shape, b: Board, taboo: set<Move>): (r: Result<set<Move>>)
    requires WellFormed(g, b)
    ensures r.Success? <==> NoClash(g, b)
    ensures r.Success? ==> forall mv :: mv in r.value <==> IsLegal(g, b, taboo, mv)
    ensures r.Success? ==> forall mv :: mv in r.value <==> mv in GetAllLegalMoves(g, b, taboo)
  {
    var rows :- MissingEach(g, b, Rows(g));
    var cols :- MissingEach(g, b, Cols(g));
    var blocks :- MissingEach(g, b, Blocks(g));
    CombineIsLegal(g, b, taboo, rows, cols, blocks);
    Success(Combine(g, b, taboo, rows, cols, blocks))
  }
}
