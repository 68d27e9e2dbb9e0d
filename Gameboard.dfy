/**
  Stage one of the game, "creating the gameboard": a controller that, when the
  engine starts it, builds a `numRows` by `numCols` grid of tiles, numbers them
  in row-major order, gives each a hue and a centred position, and scales the
  board container so the rows fill 6 units vertically.
*/
module Gameboard {
  import opened Grid

  class GameManager {
    /** The designer-set board size. */
    const numRows: int
    const numCols: int
    /** Set by Start: the number of tiles and the array holding them
        (`null` until Start runs). */
    var numTiles: int
    var tile: array?<Slot>
    /** The uniform scale of the board container. */
    var scale: real

    /** The controller as the engine creates it, before Start. */
    constructor (numRows: int, numCols: int)
      ensures this.numRows == numRows && this.numCols == numCols
      ensures numTiles == 0 && tile == null && scale == 1.0
    {
      this.numRows, this.numCols := numRows, numCols;
      numTiles, tile, scale := 0, null, 1.0;
    }

    /** Builds the board: `numRows * numCols` tiles in a fresh array, slot
        `row * numCols + col` holding the tile of that cell, then scales the
        container by `6 / numRows`. */
    method Start()
      requires numRows > 0 && numCols >= 0
      modifies this
      ensures fresh(tile)
      ensures numTiles == numRows * numCols && tile.Length == numTiles
      ensures forall i :: 0 <= i < numTiles ==> tile[i] == Filled(BoardTile(numRows, numCols, i))
      ensures numRows as real * scale == 6.0
    {
      numTiles := numRows * numCols;
      tile := new Slot[numTiles](_ => Empty);
      ghost var writes := FillGrid(tile, numRows, numCols);
      scale := 6.0 / numRows as real;
    }
  }
}
