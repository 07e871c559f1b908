/** Option, for the Java fields that start out null. */
module Optional {
  datatype Option<+T> = None | Some(value: T)
}

/**
  * A game piece as the grid and the boards see it: a colour value and a
  * 3x3 layout of block flags, indexed layout[ox][oy]. The piece catalogue
  * (which shapes exist, how they rotate) is not part of this model.
  */
module Pieces {

  /** Side of every piece layout; the grid code anchors at the centre, offset Size / 2 == 1. */
  const Size: nat := 3

  /** The block palette has this many colours; colour 0 is the empty cell. */
  const Colours: nat := 16

  datatype Piece = Piece(value: int, blocks: seq<seq<int>>)

  predicate IsLayout(blocks: seq<seq<int>>)
  {
    |blocks| == Size && forall i :: 0 <= i < Size ==> |blocks[i]| == Size
  }

  /** A piece the game can hand out: a positive colour that the palette can paint, and a 3x3 layout. */
  predicate WellFormed(p: Piece)
  {
    0 < p.value < Colours && IsLayout(p.blocks)
  }

  /** The layout offsets (ox, oy) that hold a block. */
  function OccupiedOffsets(p: Piece): (s: set<(int, int)>)
    requires WellFormed(p)
    ensures forall o :: o in s <==> 0 <= o.0 < Size && 0 <= o.1 < Size && p.blocks[o.0][o.1] > 0
  {
    set ox, oy | 0 <= ox < Size && 0 <= oy < Size && p.blocks[ox][oy] > 0 :: (ox, oy)
  }
}
