/**
  * The game grid: a cols x rows array of cell values, 0 for an empty cell,
  * with the placement test and placement write that the engines use.
  */
module Grids {
  import opened Pieces
  import opened Boards

  class Grid {
    const cols: nat
    const rows: nat
    /** cells[x, y] is the cell in column x, row y. */
    const cells: array2<int>

    ghost predicate Valid()
      reads this
    {
      cells.Length0 == cols && cells.Length1 == rows
    }

    /** The grid as a value, indexed [x][y]. */
    ghost function Board(): (b: Board)
      requires Valid()
      reads this, cells
      ensures IsBoard(b, cols, rows)
      ensures forall x, y :: InBounds(cols, rows, x, y) ==> b[x][y] == cells[x, y]
    {
      seq(cols, x requires 0 <= x < cols reads cells =>
        seq(rows, y requires 0 <= y < rows reads cells => cells[x, y]))
    }

    /** A new grid with every cell set to 0, filled row by row. */
    constructor (cols: nat, rows: nat)
      ensures Valid() && this.cols == cols && this.rows == rows
      ensures Board() == Zero(cols, rows)
      ensures fresh(cells)
    {
      this.cols := cols;
      this.rows := rows;
      var a := new int[cols, rows];
      var y := 0;
      while y < rows
        invariant 0 <= y <= rows
        invariant forall x', y' :: 0 <= x' < cols && 0 <= y' < y ==> a[x', y'] == 0
      {
        var x := 0;
        while x < cols
          invariant 0 <= x <= cols
          invariant forall x', y' :: 0 <= x' < cols && 0 <= y' < y ==> a[x', y'] == 0
          invariant forall x' :: 0 <= x' < x ==> a[x', y] == 0
        {
          a[x, y] := 0;
          x := x + 1;
        }
        y := y + 1;
      }
      cells := a;
      new;
      SameBoard(Board(), Zero(cols, rows), cols, rows);
    }

    /** Writes one cell; every other cell keeps its value. */
    method Set(x: int, y: int, value: int)
      requires Valid() && InBounds(cols, rows, x, y)
      modifies cells
      ensures Valid()
      ensures Board()[x][y] == value
      ensures forall x', y' :: InBounds(cols, rows, x', y') && (x', y') != (x, y) ==> Board()[x'][y'] == old(Board())[x'][y']
    {
      cells[x, y] := value;
    }

    /** The value of a cell, or the sentinel -1 for any coordinate outside the grid. */
    method Get(x: int, y: int) returns (v: int)
      requires Valid()
      ensures InBounds(cols, rows, x, y) ==> v == Board()[x][y]
      ensures !InBounds(cols, rows, x, y) ==> v == -1
    {
      if 0 <= x < cols && 0 <= y < rows {
        v := cells[x, y];
      } else {
        v := -1;
      }
    }

    /**
      * Whether the piece can go with its centre at (px, py): scans the
      * layout and stops at the first block whose cell is not an empty cell
      * of the grid.
      */
    method CanPlayPiece(p: Piece, px: int, py: int) returns (ok: bool)
      requires Valid() && WellFormed(p)
      ensures ok <==> Fits(Board(), cols, rows, p, px, py)
    {
      var layout := p.blocks;
      var topX, topY := px - 1, py - 1;
      var blockX := 0;
      while blockX < |layout|
        invariant 0 <= blockX <= Size
        invariant forall ox, oy :: 0 <= ox < blockX && 0 <= oy < Size && layout[ox][oy] > 0 ==>
          InBounds(cols, rows, topX + ox, topY + oy) && Board()[topX + ox][topY + oy] == 0
      {
        var blockY := 0;
        while blockY < |layout|
          invariant 0 <= blockY <= Size
          invariant forall ox, oy :: 0 <= ox < blockX && 0 <= oy < Size && layout[ox][oy] > 0 ==>
            InBounds(cols, rows, topX + ox, topY + oy) && Board()[topX + ox][topY + oy] == 0
          invariant forall oy :: 0 <= oy < blockY && layout[blockX][oy] > 0 ==>
            InBounds(cols, rows, topX + blockX, topY + oy) && Board()[topX + blockX][topY + oy] == 0
        {
          if layout[blockX][blockY] > 0 {
            var v := Get(blockX + topX, blockY + topY);
            if v != 0 {
              return false;
            }
          }
          blockY := blockY + 1;
        }
        blockX := blockX + 1;
      }
      return true;
    }

    /**
      * Stamps the piece's value on every cell under one of its blocks. The
      * caller has checked that those cells are on the grid.
      */
    method PlayPiece(p: Piece, px: int, py: int)
      requires Valid() && WellFormed(p) && OnGrid(cols, rows, p, px, py)
      modifies cells
      ensures Valid()
      ensures Board() == Play(old(Board()), cols, rows, p, px, py)
    {
      ghost var b0 := Board();
      var colour, layout := p.value, p.blocks;
      var topX, topY := px - 1, py - 1;
      var blockX := 0;
      while blockX < |layout|
        invariant 0 <= blockX <= Size
        invariant forall x, y :: InBounds(cols, rows, x, y) ==>
          cells[x, y] == if Covers(p, px, py, x, y) && x - topX < blockX then colour else b0[x][y]
      {
        var blockY := 0;
        while blockY < |layout|
          invariant 0 <= blockY <= Size
          invariant forall x, y :: InBounds(cols, rows, x, y) ==>
            cells[x, y] == if Covers(p, px, py, x, y) && (x - topX < blockX || (x - topX == blockX && y - topY < blockY)) then colour else b0[x][y]
        {
          if layout[blockX][blockY] > 0 {
            Set(blockX + topX, blockY + topY, colour);
          }
          blockY := blockY + 1;
        }
        blockX := blockX + 1;
      }
      SameBoard(Board(), Play(b0, cols, rows, p, px, py), cols, rows);
    }
  }

  /** A piece with at least one block never fits again where it was just played. */
  lemma PlayedPlaceIsTaken(b: Board, cols: nat, rows: nat, p: Piece, px: int, py: int)
    requires IsBoard(b, cols, rows) && WellFormed(p) && OccupiedOffsets(p) != {}
    ensures !Fits(Play(b, cols, rows, p, px, py), cols, rows, p, px, py)
  {
    var o :| o in OccupiedOffsets(p);
    var c := CellOf(px, py, o.0, o.1);
    if InBounds(cols, rows, c.0, c.1) {
      assert Covers(p, px, py, c.0, c.1);
    }
  }
}
