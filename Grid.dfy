/**
  The board layout shared by both stages of the game: the row-major numbering
  of the tiles, the hue fraction each tile's colour is made from, the centred
  position of each tile, the scale of the board container, and the nested loop
  that fills the tile array.

  Quantities the game keeps as `float` are `real` here, so every layout fact
  below is exact.
*/
module Grid {

  /** A tile's centre in the board container's frame (its z coordinate is always 0). */
  datatype Position = Position(x: real, y: real)

  /** A tile of the board: its row-major index, the hue fraction its colour
      is made from, its position, and whether it is lit. */
  datatype Tile = Tile(index: nat, hue: real, pos: Position, lit: bool)

  /** A slot of the tile array: empty until the grid build writes a tile into it. */
  datatype Slot = Empty | Filled(tile: Tile)

  /** The indices 0, 1, ..., n - 1 in order. */
  function Range(n: nat): seq<int>
  {
    seq(n, i => i)
  }

  // ---------------------------------------------------------------------------
  // Row-major numbering
  // ---------------------------------------------------------------------------

  /** The slot of the cell in row `row`, column `col`: rows are laid out one
      after another, `numCols` slots each. */
  function IndexOf(numCols: nat, row: nat, col: nat): (index: nat)
    requires col < numCols
    ensures index / numCols == row && index % numCols == col
  {
    DivModOfRowMajor(numCols, row, col);
    row * numCols + col
  }

  /** The cell whose slot is `index`: the inverse of IndexOf. */
  function CellOf(numCols: nat, index: nat): (cell: (nat, nat))
    requires numCols > 0
    ensures cell.1 < numCols && IndexOf(numCols, cell.0, cell.1) == index
  {
    (index / numCols, index % numCols)
  }

  /** Euclidean division recovers row and column from `row * numCols + col`. */
  lemma DivModOfRowMajor(numCols: nat, row: nat, col: nat)
    requires col < numCols
    ensures (row * numCols + col) / numCols == row
    ensures (row * numCols + col) % numCols == col
  {
    var i := row * numCols + col;
    var q, m := i / numCols, i % numCols;
    assert i == q * numCols + m && 0 <= m < numCols;
    var d := row - q;
    assert d * numCols == m - col;
    if d >= 1 {
      MulAtLeast(d, numCols);
    } else if d <= -1 {
      MulAtLeast(-d, numCols);
    }
  }

  /** A positive multiple of `c` is at least `c`. */
  lemma {:induction false} MulAtLeast(k: int, c: nat)
    requires k >= 1
    ensures k * c >= c
  {
    if k > 1 {
      MulAtLeast(k - 1, c);
    }
  }

  /** Every cell of a `numRows` by `numCols` grid has a slot below the tile count,
      so no write of the grid build is out of bounds. */
  lemma IndexBelowTileCount(numRows: nat, numCols: nat, row: nat, col: nat)
    requires row < numRows && col < numCols
    ensures IndexOf(numCols, row, col) < numRows * numCols
  {
    assert row * numCols + numCols == (row + 1) * numCols;
    assert (row + 1) * numCols <= numRows * numCols;
  }

  /** Every slot below the tile count names a cell of the grid. */
  lemma CellInGrid(numRows: nat, numCols: nat, index: nat)
    requires index < numRows * numCols
    ensures numCols > 0 && CellOf(numCols, index).0 < numRows
  {
    var (row, col) := CellOf(numCols, index);
  }

  /** The two cells are distinct exactly when their slots are: the row-major
      numbering is a bijection between the grid's cells and its slots. */
  lemma IndexOfInjective(numCols: nat, row1: nat, col1: nat, row2: nat, col2: nat)
    requires col1 < numCols && col2 < numCols
    ensures IndexOf(numCols, row1, col1) == IndexOf(numCols, row2, col2) <==> row1 == row2 && col1 == col2
  {
    var i1, i2 := IndexOf(numCols, row1, col1), IndexOf(numCols, row2, col2);
    if i1 == i2 {
      assert row1 == i1 / numCols == row2;
    }
  }

  // ---------------------------------------------------------------------------
  // Colour, position and scale
  // ---------------------------------------------------------------------------

  /** The hue fraction of tile `index` out of `numTiles`. */
  function Hue(index: nat, numTiles: nat): (h: real)
    requires index < numTiles
    ensures 0.0 <= h < 1.0
  {
    index as real / numTiles as real
  }

  /** Hues grow with the index, so no two tiles share a hue. */
  lemma HueStrictlyIncreasing(i: nat, j: nat, numTiles: nat)
    requires i < j < numTiles
    ensures Hue(i, numTiles) < Hue(j, numTiles)
  {
    var n := numTiles as real;
    assert j as real / n - i as real / n == (j - i) as real / n;
  }

  /** The y coordinate of row 0: as far above the origin as the last row,
      `numRows - 1` units lower, is below it. */
  function RowStart(numRows: int): (y: real)
    ensures y - (numRows - 1) as real == -y
  {
    numRows as real / 2.0 - 0.5
  }

  /** The x coordinate of column 0: as far left of the origin as the last
      column, `numCols - 1` units to the right, is right of it. */
  function ColStart(numCols: int): (x: real)
    ensures x + (numCols - 1) as real == -x
  {
    -numCols as real / 2.0 + 0.5
  }

  /** The centre of the tile at (row, col): one unit per column to the right,
      one unit per row downwards, starting from the top-left tile. */
  function TilePosition(numRows: nat, numCols: nat, row: nat, col: nat): Position
  {
    Position(ColStart(numCols) + col as real, RowStart(numRows) - row as real)
  }

  /** Horizontally adjacent tiles are one unit apart in x, vertically adjacent
      tiles one unit apart in y, and row 0 is the highest row. */
  lemma UnitSpacing(numRows: nat, numCols: nat, row: nat, col: nat)
    ensures TilePosition(numRows, numCols, row, col + 1).x == TilePosition(numRows, numCols, row, col).x + 1.0
    ensures TilePosition(numRows, numCols, row, col + 1).y == TilePosition(numRows, numCols, row, col).y
    ensures TilePosition(numRows, numCols, row + 1, col).y == TilePosition(numRows, numCols, row, col).y - 1.0
    ensures TilePosition(numRows, numCols, row + 1, col).x == TilePosition(numRows, numCols, row, col).x
    ensures row > 0 ==> TilePosition(numRows, numCols, row, col).y < TilePosition(numRows, numCols, 0, col).y
  {
  }

  /** The grid is centred on the origin: the cell mirrored through the centre
      sits at the negated position. */
  lemma PositionCentred(numRows: nat, numCols: nat, row: nat, col: nat)
    requires row < numRows && col < numCols
    ensures TilePosition(numRows, numCols, numRows - 1 - row, numCols - 1 - col).x == -TilePosition(numRows, numCols, row, col).x
    ensures TilePosition(numRows, numCols, numRows - 1 - row, numCols - 1 - col).y == -TilePosition(numRows, numCols, row, col).y
  {
  }

  /** The scale of the board container for `numRows` rows. */
  function Scale(numRows: nat): (s: real)
    requires numRows > 0
    ensures s > 0.0 && numRows as real * s == 6.0
  {
    6.0 / numRows as real
  }

  /** With unit-sized tiles, the rows span from half a unit above row 0's centre
      to half a unit below the last row's centre; scaled, that is 6 units. */
  lemma ScaledHeight(numRows: nat, numCols: nat, col: nat)
    requires numRows > 0
    ensures var top := TilePosition(numRows, numCols, 0, col).y + 0.5;
            var bottom := TilePosition(numRows, numCols, numRows - 1, col).y - 0.5;
            (top - bottom) * Scale(numRows) == 6.0
  {
  }

  // ---------------------------------------------------------------------------
  // The board the grid build produces
  // ---------------------------------------------------------------------------

  /** The tile the grid build writes into slot `index`, unlit. */
  function BoardTile(numRows: nat, numCols: nat, index: nat): (t: Tile)
    requires index < numRows * numCols
    ensures numCols > 0
    ensures t.index == index && !t.lit && 0.0 <= t.hue < 1.0
  {
    CellInGrid(numRows, numCols, index);
    var (row, col) := CellOf(numCols, index);
    Tile(index, Hue(index, numRows * numCols), TilePosition(numRows, numCols, row, col), false)
  }

  /** The whole board, slot by slot: one unlit tile per slot, each carrying
      its own slot number. */
  function Board(numRows: nat, numCols: nat): (b: seq<Tile>)
    ensures |b| == numRows * numCols
    ensures forall i :: 0 <= i < |b| ==> b[i].index == i && !b[i].lit
  {
    seq(numRows * numCols, i requires 0 <= i < numRows * numCols => BoardTile(numRows, numCols, i))
  }

  /** The tiles in the first and last slot, the second and second-to-last, and
      so on, sit at negated positions. */
  lemma BoardTileMirrored(numRows: nat, numCols: nat, index: nat)
    requires index < numRows * numCols
    ensures BoardTile(numRows, numCols, numRows * numCols - 1 - index).pos.x == -BoardTile(numRows, numCols, index).pos.x
    ensures BoardTile(numRows, numCols, numRows * numCols - 1 - index).pos.y == -BoardTile(numRows, numCols, index).pos.y
  {
    CellInGrid(numRows, numCols, index);
    var (row, col) := CellOf(numCols, index);
    var mirror := numRows * numCols - 1 - index;
    assert mirror == (numRows - 1 - row) * numCols + (numCols - 1 - col) by {
      assert index == row * numCols + col;
      assert numRows * numCols == (numRows - 1 - row) * numCols + row * numCols + numCols;
    }
    assert CellOf(numCols, mirror) == (numRows - 1 - row, numCols - 1 - col) by {
      DivModOfRowMajor(numCols, numRows - 1 - row, numCols - 1 - col);
    }
    PositionCentred(numRows, numCols, row, col);
  }

  /** The sum of a sequence of reals. */
  function Sum(s: seq<real>): real
  {
    if s == [] then 0.0 else s[0] + Sum(s[1..])
  }

  lemma {:induction false} SumLast(s: seq<real>)
    requires s != []
    ensures Sum(s) == Sum(s[..|s| - 1]) + s[|s| - 1]
  {
    if |s| > 1 {
      SumLast(s[1..]);
      assert s[1..][..|s| - 2] == s[..|s| - 1][1..];
    }
  }

  /** A sequence whose mirrored entries cancel sums to zero. */
  lemma {:induction false} SumOfMirrored(s: seq<real>)
    requires forall i :: 0 <= i < |s| ==> s[i] + s[|s| - 1 - i] == 0.0
    ensures Sum(s) == 0.0
  {
    if |s| == 1 {
      assert s[0] + s[0] == 0.0;
    } else if |s| > 1 {
      var inner := s[1..|s| - 1];
      forall i | 0 <= i < |inner|
        ensures inner[i] + inner[|inner| - 1 - i] == 0.0
      {
        assert inner[i] == s[i + 1] && inner[|inner| - 1 - i] == s[|s| - 1 - (i + 1)];
      }
      SumOfMirrored(inner);
      SumLast(s[1..]);
      assert s[1..][..|s| - 2] == inner;
      assert s[0] + s[|s| - 1] == 0.0;
    }
  }

  /** The x and y coordinates of a board's tiles. */
  function Xs(b: seq<Tile>): seq<real>
  {
    seq(|b|, i requires 0 <= i < |b| => b[i].pos.x)
  }

  function Ys(b: seq<Tile>): seq<real>
  {
    seq(|b|, i requires 0 <= i < |b| => b[i].pos.y)
  }

  /** The board is centred on the origin: its tiles' x coordinates sum to 0,
      and so do their y coordinates. */
  lemma BoardCentred(numRows: nat, numCols: nat)
    ensures Sum(Xs(Board(numRows, numCols))) == 0.0
    ensures Sum(Ys(Board(numRows, numCols))) == 0.0
  {
    var b := Board(numRows, numCols);
    var n := numRows * numCols;
    forall i | 0 <= i < n
      ensures Xs(b)[i] + Xs(b)[n - 1 - i] == 0.0 && Ys(b)[i] + Ys(b)[n - 1 - i] == 0.0
    {
      BoardTileMirrored(numRows, numCols, i);
    }
    SumOfMirrored(Xs(b));
    SumOfMirrored(Ys(b));
  }

  /** No two tiles of the board share a position. */
  lemma BoardTilesDistinct(numRows: nat, numCols: nat, i: nat, j: nat)
    requires i < j < numRows * numCols
    ensures Board(numRows, numCols)[i].pos != Board(numRows, numCols)[j].pos
  {
    CellInGrid(numRows, numCols, i);
    var (ri, ci) := CellOf(numCols, i);
    var (rj, cj) := CellOf(numCols, j);
    IndexOfInjective(numCols, ri, ci, rj, cj);
  }

  // ---------------------------------------------------------------------------
  // The grid build
  // ---------------------------------------------------------------------------

  /** The tile the grid build writes at (row, col) is the board's tile for that slot. */
  lemma CellTileIsBoardTile(numRows: nat, numCols: nat, row: nat, col: nat)
    requires row < numRows && col < numCols
    ensures IndexOf(numCols, row, col) < numRows * numCols
    ensures var index := IndexOf(numCols, row, col);
            Tile(index, Hue(index, numRows * numCols), TilePosition(numRows, numCols, row, col), false)
            == BoardTile(numRows, numCols, index)
  {
    IndexBelowTileCount(numRows, numCols, row, col);
    var index := IndexOf(numCols, row, col);
    assert CellOf(numCols, index) == (row, col);
  }

  /** Fills the freshly allocated tile array row by row, column by column.
      `writes` lists the slots written, in order: every slot exactly once. */
  method FillGrid(tile: array<Slot>, numRows: nat, numCols: nat) returns (ghost writes: seq<int>)
    requires tile.Length == numRows * numCols
    requires forall i :: 0 <= i < tile.Length ==> tile[i] == Empty
    modifies tile
    ensures forall i :: 0 <= i < tile.Length ==> tile[i] == Filled(BoardTile(numRows, numCols, i))
    ensures writes == Range(tile.Length)
  {
    var numTiles := numRows * numCols;
    writes := [];
    ghost var done := 0;  // slots filled so far: row * numCols + col
    for row := 0 to numRows
      invariant done == row * numCols <= numTiles
      invariant writes == Range(done)
      invariant forall i :: 0 <= i < done ==> tile[i] == Filled(BoardTile(numRows, numCols, i))
      invariant forall i :: done <= i < numTiles ==> tile[i] == Empty
    {
      for col := 0 to numCols
        invariant done == row * numCols + col <= numTiles
        invariant writes == Range(done)
        invariant forall i :: 0 <= i < done ==> tile[i] == Filled(BoardTile(numRows, numCols, i))
        invariant forall i :: done <= i < numTiles ==> tile[i] == Empty
      {
        var index := IndexOf(numCols, row, col);
        CellTileIsBoardTile(numRows, numCols, row, col);
        assert index == done && tile[index] == Empty;  // no slot is written twice
        tile[index] := Filled(Tile(index, Hue(index, numTiles), TilePosition(numRows, numCols, row, col), false));
        writes := writes + [index];
        done := done + 1;
      }
      assert done == (row + 1) * numCols;
    }
  }
}
