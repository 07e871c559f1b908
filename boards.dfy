/**
  * The value-level view of a game grid: b[x][y] is the cell in column x and
  * row y, 0 when empty. These functions are the specification that the Grid
  * class and the game engines are proved against.
  */
module Boards {
  import opened Pieces
  import opened Counting

  type Coord = (int, int)
  type Board = seq<seq<int>>

  predicate IsBoard(b: Board, cols: nat, rows: nat)
  {
    |b| == cols && forall x :: 0 <= x < cols ==> |b[x]| == rows
  }

  predicate InBounds(cols: nat, rows: nat, x: int, y: int)
  {
    0 <= x < cols && 0 <= y < rows
  }

  /** Every cell holds 0 or a palette colour. */
  ghost predicate CellsInRange(b: Board, cols: nat, rows: nat)
    requires IsBoard(b, cols, rows)
  {
    forall x, y :: InBounds(cols, rows, x, y) ==> 0 <= b[x][y] < Colours
  }

  function Zero(cols: nat, rows: nat): (b: Board)
    ensures IsBoard(b, cols, rows)
    ensures forall x, y :: InBounds(cols, rows, x, y) ==> b[x][y] == 0
  {
    seq(cols, x => seq(rows, y => 0))
  }

  /** Two boards of one shape that agree on every cell are equal. */
  lemma SameBoard(a: Board, b: Board, cols: nat, rows: nat)
    requires IsBoard(a, cols, rows) && IsBoard(b, cols, rows)
    requires forall x, y :: InBounds(cols, rows, x, y) ==> a[x][y] == b[x][y]
    ensures a == b
  {
    forall x | 0 <= x < cols
      ensures a[x] == b[x]
    {
      assert forall y :: 0 <= y < rows ==> a[x][y] == b[x][y];
    }
  }

  // ---------------------------------------------------------------- placement

  /** The grid cell that layout offset (ox, oy) lands on when the piece is anchored at (px, py). */
  function CellOf(px: int, py: int, ox: int, oy: int): Coord
  {
    (px - 1 + ox, py - 1 + oy)
  }

  /** The piece fits: every block of the layout lands on an in-bounds cell that holds 0. */
  predicate Fits(b: Board, cols: nat, rows: nat, p: Piece, px: int, py: int)
    requires IsBoard(b, cols, rows) && WellFormed(p)
  {
    forall ox, oy :: 0 <= ox < Size && 0 <= oy < Size && p.blocks[ox][oy] > 0 ==>
      InBounds(cols, rows, px - 1 + ox, py - 1 + oy) && b[px - 1 + ox][py - 1 + oy] == 0
  }

  /** Every block of the layout lands inside the grid (what writing the piece needs). */
  predicate OnGrid(cols: nat, rows: nat, p: Piece, px: int, py: int)
    requires WellFormed(p)
  {
    forall ox, oy :: 0 <= ox < Size && 0 <= oy < Size && p.blocks[ox][oy] > 0 ==>
      InBounds(cols, rows, px - 1 + ox, py - 1 + oy)
  }

  /** Cell (x, y) lies under a block of the piece anchored at (px, py). */
  predicate Covers(p: Piece, px: int, py: int, x: int, y: int)
    requires WellFormed(p)
  {
    0 <= x - px + 1 < Size && 0 <= y - py + 1 < Size && p.blocks[x - px + 1][y - py + 1] > 0
  }

  /** The board after stamping the piece's value under each of its blocks. */
  function Play(b: Board, cols: nat, rows: nat, p: Piece, px: int, py: int): (r: Board)
    requires IsBoard(b, cols, rows) && WellFormed(p)
    ensures IsBoard(r, cols, rows)
    ensures forall x, y :: InBounds(cols, rows, x, y) ==>
      r[x][y] == if Covers(p, px, py, x, y) then p.value else b[x][y]
  {
    seq(cols, x requires 0 <= x < cols =>
      seq(rows, y requires 0 <= y < rows =>
        if Covers(p, px, py, x, y) then p.value else b[x][y]))
  }

  /** The cells of the grid a placement would occupy. */
  function Footprint(p: Piece, px: int, py: int): set<Coord>
    requires WellFormed(p)
  {
    set o | o in OccupiedOffsets(p) :: CellOf(px, py, o.0, o.1)
  }

  function NonZeroCells(b: Board, cols: nat, rows: nat): set<Coord>
    requires IsBoard(b, cols, rows)
  {
    set x, y | 0 <= x < cols && 0 <= y < rows && b[x][y] != 0 :: (x, y)
  }

  /** A placement occupies exactly as many cells as the layout has blocks. */
  lemma FootprintSize(p: Piece, px: int, py: int)
    requires WellFormed(p)
    ensures |Footprint(p, px, py)| == |OccupiedOffsets(p)|
  {
    ShiftCard(OccupiedOffsets(p), px - 1, py - 1);
    assert Footprint(p, px, py) == set o | o in OccupiedOffsets(p) :: (o.0 + (px - 1), o.1 + (py - 1));
  }

  /** The footprint is exactly the set of cells the piece covers. */
  lemma FootprintIsCovered(p: Piece, px: int, py: int, x: int, y: int)
    requires WellFormed(p)
    ensures (x, y) in Footprint(p, px, py) <==> Covers(p, px, py, x, y)
  {
    var o := (x - px + 1, y - py + 1);
    if Covers(p, px, py, x, y) {
      assert o in OccupiedOffsets(p) && CellOf(px, py, o.0, o.1) == (x, y);
    }
    if (x, y) in Footprint(p, px, py) {
      var o' :| o' in OccupiedOffsets(p) && (x, y) == CellOf(px, py, o'.0, o'.1);
      assert o' == o;
    }
  }

  /** Under a placement that fits, every footprint cell is an empty cell of the grid. */
  lemma FootprintEmpty(b: Board, cols: nat, rows: nat, p: Piece, px: int, py: int, c: Coord)
    requires IsBoard(b, cols, rows) && WellFormed(p)
    requires Fits(b, cols, rows, p, px, py)
    requires c in Footprint(p, px, py)
    ensures InBounds(cols, rows, c.0, c.1) && b[c.0][c.1] == 0
  {
    var o :| o in OccupiedOffsets(p) && c == CellOf(px, py, o.0, o.1);
    assert p.blocks[o.0][o.1] > 0;
  }

  /** Under a placement that fits, the filled cells afterwards are the old ones plus the footprint. */
  lemma PlayCells(b: Board, cols: nat, rows: nat, p: Piece, px: int, py: int)
    requires IsBoard(b, cols, rows) && WellFormed(p)
    requires Fits(b, cols, rows, p, px, py)
    ensures NonZeroCells(Play(b, cols, rows, p, px, py), cols, rows) == NonZeroCells(b, cols, rows) + Footprint(p, px, py)
  {
    var r := Play(b, cols, rows, p, px, py);
    var fp := Footprint(p, px, py);
    var before, after := NonZeroCells(b, cols, rows), NonZeroCells(r, cols, rows);
    forall c | c in after
      ensures c in before + fp
    {
      assert c == (c.0, c.1);
      FootprintIsCovered(p, px, py, c.0, c.1);
    }
    forall c | c in before + fp
      ensures c in after
    {
      assert c == (c.0, c.1);
      FootprintIsCovered(p, px, py, c.0, c.1);
      if c in fp {
        FootprintEmpty(b, cols, rows, p, px, py, c);
      }
    }
  }

  /**
    * A placement that fits writes only empty, in-bounds cells: the footprint
    * misses every filled cell, and the number of filled cells grows by
    * exactly the number of blocks in the layout.
    */
  lemma PlayFillsFootprint(b: Board, cols: nat, rows: nat, p: Piece, px: int, py: int)
    requires IsBoard(b, cols, rows) && WellFormed(p)
    requires Fits(b, cols, rows, p, px, py)
    ensures Footprint(p, px, py) !! NonZeroCells(b, cols, rows)
    ensures |NonZeroCells(Play(b, cols, rows, p, px, py), cols, rows)| == |NonZeroCells(b, cols, rows)| + |OccupiedOffsets(p)|
  {
    var fp, before := Footprint(p, px, py), NonZeroCells(b, cols, rows);
    forall c | c in fp
      ensures c !in before
    {
      FootprintEmpty(b, cols, rows, p, px, py, c);
    }
    PlayCells(b, cols, rows, p, px, py);
    UnionSize(before, fp);
    assert before * fp == {};
    FootprintSize(p, px, py);
  }

  // -------------------------------------------------------------------- lines

  /** Column x is a complete line: all of its rows cells are filled. */
  predicate ColumnFull(b: Board, cols: nat, rows: nat, x: int)
    requires IsBoard(b, cols, rows) && 0 <= x < cols
  {
    forall y :: 0 <= y < rows ==> b[x][y] != 0
  }

  /** Row y is a complete line: all of its cols cells are filled. */
  predicate RowFull(b: Board, cols: nat, rows: nat, y: int)
    requires IsBoard(b, cols, rows) && 0 <= y < rows
  {
    forall x :: 0 <= x < cols ==> b[x][y] != 0
  }

  function FullColumns(b: Board, cols: nat, rows: nat): set<int>
    requires IsBoard(b, cols, rows)
  {
    set x | 0 <= x < cols && ColumnFull(b, cols, rows, x)
  }

  function FullRows(b: Board, cols: nat, rows: nat): set<int>
    requires IsBoard(b, cols, rows)
  {
    set y | 0 <= y < rows && RowFull(b, cols, rows, y)
  }

  /** Complete columns plus complete rows; a crossing column and row count twice. */
  function LineCount(b: Board, cols: nat, rows: nat): nat
    requires IsBoard(b, cols, rows)
  {
    |FullColumns(b, cols, rows)| + |FullRows(b, cols, rows)|
  }

  /** Every cell of a complete line, each once. */
  function ClearedCells(b: Board, cols: nat, rows: nat): set<Coord>
    requires IsBoard(b, cols, rows)
  {
    set x, y | 0 <= x < cols && 0 <= y < rows && (ColumnFull(b, cols, rows, x) || RowFull(b, cols, rows, y)) :: (x, y)
  }

  /** The board with the given cells set back to 0. */
  function Clear(b: Board, cols: nat, rows: nat, s: set<Coord>): (r: Board)
    requires IsBoard(b, cols, rows)
    ensures IsBoard(r, cols, rows)
    ensures forall x, y :: InBounds(cols, rows, x, y) ==> r[x][y] == if (x, y) in s then 0 else b[x][y]
  {
    seq(cols, x requires 0 <= x < cols =>
      seq(rows, y requires 0 <= y < rows =>
        if (x, y) in s then 0 else b[x][y]))
  }

  /** The cleared cells are the cells of the complete columns together with those of the complete rows. */
  lemma ClearedCellsSplit(b: Board, cols: nat, rows: nat)
    requires IsBoard(b, cols, rows)
    ensures ClearedCells(b, cols, rows) ==
      Product(FullColumns(b, cols, rows), Range(rows)) + Product(Range(cols), FullRows(b, cols, rows))
  {
    var fc, fr := FullColumns(b, cols, rows), FullRows(b, cols, rows);
    var lhs, rhs := ClearedCells(b, cols, rows), Product(fc, Range(rows)) + Product(Range(cols), fr);
    forall c | c in rhs
      ensures c in lhs
    {
      assert c == (c.0, c.1);
    }
    forall c | c in lhs
      ensures c in rhs
    {
      assert c == (c.0, c.1);
    }
  }

  /** Where the cells of the complete columns meet those of the complete rows: one cell per crossing. */
  lemma CrossingCells(fc: set<int>, fr: set<int>, cols: nat, rows: nat)
    requires fc <= Range(cols) && fr <= Range(rows)
    ensures Product(fc, Range(rows)) * Product(Range(cols), fr) == Product(fc, fr)
  {
    var lhs := Product(fc, Range(rows)) * Product(Range(cols), fr);
    forall c | c in lhs
      ensures c in Product(fc, fr)
    {
      assert c == (c.0, c.1);
    }
  }

  /**
    * The cleared set counts each cell once: with C complete columns and R
    * complete rows it holds C*rows + R*cols - C*R cells, the C*R crossings
    * being shared by a column and a row.
    */
  lemma ClearedCellsSize(b: Board, cols: nat, rows: nat)
    requires IsBoard(b, cols, rows)
    ensures |ClearedCells(b, cols, rows)| ==
      |FullColumns(b, cols, rows)| * rows + |FullRows(b, cols, rows)| * cols
      - |FullColumns(b, cols, rows)| * |FullRows(b, cols, rows)|
  {
    var fc, fr := FullColumns(b, cols, rows), FullRows(b, cols, rows);
    var inColumns, inRows := Product(fc, Range(rows)), Product(Range(cols), fr);
    ClearedCellsSplit(b, cols, rows);
    CrossingCells(fc, fr, cols, rows);
    UnionSize(inColumns, inRows);
    RangeSize(rows);
    RangeSize(cols);
    ProductSize(fc, Range(rows));
    ProductSize(Range(cols), fr);
    ProductSize(fc, fr);
    var nc, nr, nx := |inColumns|, |inRows|, |Product(fc, fr)|;
    assert nc == |fc| * rows;
    assert nr == cols * |fr|;
    assert nx == |fc| * |fr|;
    assert |ClearedCells(b, cols, rows)| == nc + nr - nx;
  }

  /** No more cells can be cleared than the grid has. */
  lemma ClearedCellsBound(b: Board, cols: nat, rows: nat)
    requires IsBoard(b, cols, rows)
    ensures |ClearedCells(b, cols, rows)| <= cols * rows
  {
    var all := Product(Range(cols), Range(rows));
    forall c | c in ClearedCells(b, cols, rows)
      ensures c in all
    {
    }
    SubsetSize(ClearedCells(b, cols, rows), all);
    RangeSize(rows);
    RangeSize(cols);
    ProductSize(Range(cols), Range(rows));
  }

  /** Clearing the cells of every complete line leaves no complete line behind. */
  lemma NoLineSurvivesClear(b: Board, cols: nat, rows: nat)
    requires IsBoard(b, cols, rows) && cols > 0 && rows > 0
    ensures LineCount(Clear(b, cols, rows, ClearedCells(b, cols, rows)), cols, rows) == 0
  {
    var s := ClearedCells(b, cols, rows);
    var r := Clear(b, cols, rows, s);
    forall x | 0 <= x < cols
      ensures !ColumnFull(r, cols, rows, x)
    {
      if ColumnFull(b, cols, rows, x) {
        assert (x, 0) in s;
        assert r[x][0] == 0;
      } else {
        var y :| 0 <= y < rows && b[x][y] == 0;
        assert r[x][y] == 0;
      }
    }
    forall y | 0 <= y < rows
      ensures !RowFull(r, cols, rows, y)
    {
      if RowFull(b, cols, rows, y) {
        assert (0, y) in s;
        assert r[0][y] == 0;
      } else {
        var x :| 0 <= x < cols && b[x][y] == 0;
        assert r[x][y] == 0;
      }
    }
    assert FullColumns(r, cols, rows) == {};
    assert FullRows(r, cols, rows) == {};
  }
}
