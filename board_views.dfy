/**
  * The two pieces of state the board components keep beyond what they
  * draw: the keyboard aim of a game board, and the 3 x 3 grid of a piece
  * preview board.
  */
module BoardViews {
  import opened Pieces
  import opened Boards
  import opened Grids

  /** Where the aim of a new board is. */
  const StartAim: Coord := (2, 2)

  /**
    * A keyboard move of the aim by (dx, dy): each axis takes its step only
    * when the result stays on the board, independently of the other axis.
    */
  function Moved(aim: Coord, d: Coord, cols: nat, rows: nat): (r: Coord)
  {
    (if 0 <= aim.0 + d.0 < cols then aim.0 + d.0 else aim.0,
     if 0 <= aim.1 + d.1 < rows then aim.1 + d.1 else aim.1)
  }

  /** The aim after a whole sequence of keyboard moves, oldest first. */
  function AfterMoves(aim: Coord, moves: seq<Coord>, cols: nat, rows: nat): Coord
    decreases |moves|
  {
    if moves == [] then aim else AfterMoves(Moved(aim, moves[0], cols, rows), moves[1..], cols, rows)
  }

  /** One move keeps an aim that was on the board on the board. */
  lemma MovedStaysOnBoard(aim: Coord, d: Coord, cols: nat, rows: nat)
    requires InBounds(cols, rows, aim.0, aim.1)
    ensures var r := Moved(aim, d, cols, rows); InBounds(cols, rows, r.0, r.1)
  {
  }

  /** An aim on the board stays on the board after any sequence of keyboard moves. */
  lemma {:induction false} AfterMovesStaysOnBoard(aim: Coord, moves: seq<Coord>, cols: nat, rows: nat)
    requires InBounds(cols, rows, aim.0, aim.1)
    ensures var r := AfterMoves(aim, moves, cols, rows); InBounds(cols, rows, r.0, r.1)
    decreases |moves|
  {
    if moves != [] {
      MovedStaysOnBoard(aim, moves[0], cols, rows);
      AfterMovesStaysOnBoard(Moved(aim, moves[0], cols, rows), moves[1..], cols, rows);
    }
  }

  /**
    * The axes do not interfere: each coordinate of the result is what the
    * move along that axis alone gives, so a step off the board on one axis
    * does not block a step on the other.
    */
  lemma AxesIndependent(aim: Coord, d: Coord, cols: nat, rows: nat)
    ensures Moved(aim, d, cols, rows).0 == Moved(aim, (d.0, 0), cols, rows).0
    ensures Moved(aim, d, cols, rows).1 == Moved(aim, (0, d.1), cols, rows).1
    ensures InBounds(cols, rows, aim.0, aim.1) && !(0 <= aim.0 + d.0 < cols) && 0 <= aim.1 + d.1 < rows ==>
      Moved(aim, d, cols, rows) == (aim.0, aim.1 + d.1)
  {
  }

  /** A move that was taken on both axes is undone by the opposite move. */
  lemma MoveUndone(aim: Coord, d: Coord, cols: nat, rows: nat)
    requires InBounds(cols, rows, aim.0, aim.1) && InBounds(cols, rows, aim.0 + d.0, aim.1 + d.1)
    ensures Moved(Moved(aim, d, cols, rows), (-d.0, -d.1), cols, rows) == aim
  {
  }

  /** The aim part of a game board. */
  class GameBoard {
    const cols: nat
    const rows: nat
    var aimX: int
    var aimY: int

    /** The aim is on a block of the board. */
    predicate AimOnBoard()
      reads this
    {
      InBounds(cols, rows, aimX, aimY)
    }

    /** A cols x rows board aiming at (2, 2). */
    constructor (cols: nat, rows: nat)
      ensures this.cols == cols && this.rows == rows
      ensures (aimX, aimY) == StartAim
      ensures cols >= 3 && rows >= 3 ==> AimOnBoard()
    {
      this.cols, this.rows := cols, rows;
      aimX, aimY := StartAim.0, StartAim.1;
    }

    /**
      * The keyboard aim: moves by (dx, dy), axis by axis, only where the
      * result stays on the board. The old aim's block is looked up first,
      * so the aim must be on the board.
      */
    method AimChange(dx: int, dy: int)
      requires AimOnBoard()
      modifies this`aimX, this`aimY
      ensures (aimX, aimY) == Moved((old(aimX), old(aimY)), (dx, dy), cols, rows)
      ensures AimOnBoard()
    {
      if aimX + dx >= 0 && aimX + dx < cols {
        aimX := aimX + dx;
      }
      if aimY + dy >= 0 && aimY + dy < rows {
        aimY := aimY + dy;
      }
    }

    /** The mouse aim: jumps to the block (x, y) of this board the pointer entered. */
    method AimChangeTo(x: int, y: int)
      requires AimOnBoard() && InBounds(cols, rows, x, y)
      modifies this`aimX, this`aimY
      ensures aimX == x && aimY == y
      ensures AimOnBoard()
    {
      aimX := x;
      aimY := y;
    }
  }

  /** The board a 3 x 3 preview shows for a piece: its value under each block, 0 elsewhere. */
  lemma PreviewCells(p: Piece)
    requires WellFormed(p)
    ensures OnGrid(Size, Size, p, 1, 1)
    ensures var b := Play(Zero(Size, Size), Size, Size, p, 1, 1);
      forall x, y :: 0 <= x < Size && 0 <= y < Size ==>
        (b[x][y] == p.value <==> p.blocks[x][y] > 0) && (p.blocks[x][y] <= 0 ==> b[x][y] == 0)
  {
    var b := Play(Zero(Size, Size), Size, Size, p, 1, 1);
    forall x, y | 0 <= x < Size && 0 <= y < Size
      ensures (b[x][y] == p.value <==> p.blocks[x][y] > 0) && (p.blocks[x][y] <= 0 ==> b[x][y] == 0)
    {
      assert Covers(p, 1, 1, x, y) <==> p.blocks[x][y] > 0;
    }
  }

  /** A piece preview board: a grid of its own and an aim that never moves. */
  class PieceBoard {
    const grid: Grid
    var aimX: int
    var aimY: int

    ghost predicate Valid()
      reads this, grid
    {
      grid.Valid()
    }

    /** An empty cols x rows preview aiming at (2, 2). */
    constructor (cols: nat, rows: nat)
      ensures Valid() && fresh(grid) && fresh(grid.cells)
      ensures grid.cols == cols && grid.rows == rows && grid.Board() == Zero(cols, rows)
      ensures (aimX, aimY) == StartAim
    {
      grid := new Grid(cols, rows);
      aimX, aimY := StartAim.0, StartAim.1;
    }

    /**
      * Shows a piece: every cell is reset to 0, column by column, then the
      * piece is stamped with its centre at (1, 1). The result does not
      * depend on what the board showed before.
      */
    method SetPiece(p: Piece)
      requires Valid() && WellFormed(p) && OnGrid(grid.cols, grid.rows, p, 1, 1)
      modifies grid.cells
      ensures Valid()
      ensures grid.Board() == Play(Zero(grid.cols, grid.rows), grid.cols, grid.rows, p, 1, 1)
    {
      for x := 0 to grid.cols
        invariant grid.Valid()
        invariant forall x', y' :: 0 <= x' < x && 0 <= y' < grid.rows ==> grid.Board()[x'][y'] == 0
      {
        for y := 0 to grid.rows
          invariant grid.Valid()
          invariant forall x', y' :: 0 <= x' < x && 0 <= y' < grid.rows ==> grid.Board()[x'][y'] == 0
          invariant forall y' :: 0 <= y' < y ==> grid.Board()[x][y'] == 0
        {
          grid.Set(x, y, 0);
        }
      }
      SameBoard(grid.Board(), Zero(grid.cols, grid.rows), grid.cols, grid.rows);
      grid.PlayPiece(p, 1, 1);
    }

    /** The keyboard aim does nothing on a preview. */
    method AimChange(dx: int, dy: int)
      ensures unchanged(this)
    {
    }

    /** The mouse aim does nothing on a preview. */
    method AimChangeTo(x: int, y: int)
      ensures unchanged(this)
    {
    }

    /** Leaving a block does nothing on a preview. */
    method ExitedBlock(x: int, y: int)
      ensures unchanged(this)
    {
    }
  }
}
