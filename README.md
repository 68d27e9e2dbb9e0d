# Simon board controller, modelled in Dafny

The game is a "Simon" memory game built in two stages. Each stage has one
controller, `GameManager`, and this project models it.

- **Stage one** (`part1_creating_the_gameboard`). `Start` computes
  `numTiles = numRows * numCols` and allocates a tile array of that length.
  Nested row and column loops then fill slot `row * numCols + col` with a
  tile. Each tile gets the hue fraction `index / numTiles` and the centred
  position `(colStart + col, rowStart - row)`, where
  `rowStart = numRows / 2 - 0.5` and `colStart = -numCols / 2 + 0.5`.
  Finally the board container is scaled by `6 / numRows`, so the rows fill
  6 units vertically.
- **Stage two** (`part2_lights_and_sound`). The grid build is the same, and
  `Start` also moves the game mode from `None` to `Menu`. While the mode is
  `Menu`, an attract loop keeps flashing random tiles. A flash turns a tile
  on and then turns the same tile off. A pressed tile is flashed and plays a
  tone. The tone's pitch runs linearly from 0.5 for the first tile to 2.0 for
  the last, and it is set only when there is more than one tile. The tone is
  scheduled from the audio clock's current reading to that reading plus
  `duration`.

Files:

- `Grid.dfy` (module `Grid`) holds what both stages share:
  - the `Tile` record (index, hue fraction, position, lit flag) and the
    array `Slot` (empty until written);
  - the row-major numbering and its inverse;
  - the hue, position and scale formulas;
  - `Board`, the value the grid build produces;
  - `FillGrid`, the nested loop that fills the array in place.

  Both stages run the same grid loop, so it is modelled once and both `Start`
  methods call it.
- `Gameboard.dfy` (module `Gameboard`) is the stage-one controller, a class
  whose `Start` updates its fields.
- `LightsAndSound.dfy` (module `LightsAndSound`) is the stage-two controller:
  the game mode, the attract loop, flashing, and the pitch and tone schedule.
  It also holds `MenuFlashes`, a pure specification of the attract loop, and
  the pitch functions.

Numbers that the game keeps as `float` or `double` are `real` here. The
engine's `Mathf.Lerp` clamps its fraction to `[0, 1]`, and `Lerp` models
that clamp.

## Model

| member | source | states |
|---|---|---|
| `Grid.IndexOf` | part1_creating_the_gameboard/Assets/Scripts/GameManager.cs:23 | Slot `row * numCols + col` gives back `row` when divided by `numCols` and `col` as the remainder. Row-major numbering loses nothing. |
| `Grid.CellOf` | part1_creating_the_gameboard/Assets/Scripts/GameManager.cs:23 | Every slot index comes from exactly one cell `(row, col)` with `col < numCols`. It is the inverse of `IndexOf`. |
| `Grid.DivModOfRowMajor` | part1_creating_the_gameboard/Assets/Scripts/GameManager.cs:23 | Euclidean division of `row * numCols + col` by `numCols` has quotient `row` and remainder `col`. |
| `Grid.IndexBelowTileCount` | part1_creating_the_gameboard/Assets/Scripts/GameManager.cs:17-23 | Every cell the loops visit has a slot below `numRows * numCols`, so no write goes out of bounds. |
| `Grid.CellInGrid` | part1_creating_the_gameboard/Assets/Scripts/GameManager.cs:17-23 | Every slot below the tile count names a cell inside the grid, so the loops reach every slot. |
| `Grid.IndexOfInjective` | part1_creating_the_gameboard/Assets/Scripts/GameManager.cs:21-23 | Two cells share a slot if and only if they are the same cell. |
| `Grid.Hue` | part1_creating_the_gameboard/Assets/Scripts/GameManager.cs:27 | The hue fraction `index / numTiles` of every tile lies in `[0, 1)`. |
| `Grid.HueStrictlyIncreasing` | part1_creating_the_gameboard/Assets/Scripts/GameManager.cs:27 | Hue fractions strictly increase with the index, so no two tiles share a hue. |
| `Grid.RowStart` | part1_creating_the_gameboard/Assets/Scripts/GameManager.cs:30 | Row 0 lies as far above the origin as the last row, `numRows - 1` units lower, lies below it. |
| `Grid.ColStart` | part1_creating_the_gameboard/Assets/Scripts/GameManager.cs:31 | Column 0 lies as far left of the origin as the last column, `numCols - 1` units to the right, lies right of it. |
| `Grid.TilePosition` | part1_creating_the_gameboard/Assets/Scripts/GameManager.cs:30-32 | Definition of the centre of cell `(row, col)`: `(colStart + col, rowStart - row)`. Its properties are stated by `UnitSpacing`, `PositionCentred` and `ScaledHeight`. |
| `Grid.UnitSpacing` | part1_creating_the_gameboard/Assets/Scripts/GameManager.cs:30-32 | Horizontal neighbours are exactly 1 apart in x at the same y. Vertical neighbours are exactly 1 apart in y at the same x. Row 0 is higher than every other row. |
| `Grid.PositionCentred` | part1_creating_the_gameboard/Assets/Scripts/GameManager.cs:30-32 | The cell `(numRows-1-row, numCols-1-col)` sits at the negation of the position of cell `(row, col)`. |
| `Grid.Scale` | part1_creating_the_gameboard/Assets/Scripts/GameManager.cs:38 | For `numRows > 0` the scale is positive and `numRows * scale == 6`. |
| `Grid.ScaledHeight` | part1_creating_the_gameboard/Assets/Scripts/GameManager.cs:36-39 | The rows of unit tiles span from the top edge of row 0 to the bottom edge of the last row. Scaled, that span is exactly 6 units. |
| `Grid.BoardTile` | part1_creating_the_gameboard/Assets/Scripts/GameManager.cs:23-32 | The tile built for slot `index` carries `index` as its own index. It is unlit and its hue lies in `[0, 1)`. |
| `Grid.Board` | part1_creating_the_gameboard/Assets/Scripts/GameManager.cs:17-34 | The board the grid build produces has `numRows * numCols` tiles. Each is unlit and carries its own slot number. |
| `Grid.CellTileIsBoardTile` | part1_creating_the_gameboard/Assets/Scripts/GameManager.cs:23-32 | The tile the loop body builds from `(row, col)` is the board's tile for slot `row * numCols + col`, and that slot is in bounds. |
| `Grid.BoardTileMirrored` | part1_creating_the_gameboard/Assets/Scripts/GameManager.cs:23-32 | The tiles in slots `i` and `numTiles - 1 - i` sit at negated positions. |
| `Grid.BoardCentred` | part1_creating_the_gameboard/Assets/Scripts/GameManager.cs:30-32 | The x coordinates of all tiles on the board sum to 0, and so do the y coordinates. The grid is centred on the origin. |
| `Grid.BoardTilesDistinct` | part1_creating_the_gameboard/Assets/Scripts/GameManager.cs:21-32 | No two tiles of the board share a position. |
| `Grid.FillGrid` | part1_creating_the_gameboard/Assets/Scripts/GameManager.cs:21-34 | The nested row/column loop writes each slot of the fresh array exactly once, in order `0 .. numTiles-1`, and never writes a slot twice. Afterwards slot `i` holds the board's tile `i`. |
| `Gameboard.GameManager.constructor` | part1_creating_the_gameboard/Assets/Scripts/GameManager.cs:6-13 | Before `Start` the controller has its designer-set row and column counts and no tiles. |
| `Gameboard.GameManager.Start` | part1_creating_the_gameboard/Assets/Scripts/GameManager.cs:15-40 | After `Start`, `numTiles == numRows * numCols` and the fresh tile array has exactly `numTiles` slots. Slot `i` holds the board's tile `i`, and `numRows * scale == 6`. |
| `LightsAndSound.GameManager.constructor` | part2_lights_and_sound/Assets/Scripts/GameManager.cs:27 | Before `Start` the game mode is `None` and no tone is scheduled. |
| `LightsAndSound.GameManager.Start` | part2_lights_and_sound/Assets/Scripts/GameManager.cs:29-58 | `Start` builds the same board as stage one, with all tiles unlit. It scales the container by `6 / numRows` and sets the game mode to `Menu`. Pitch and the tone schedule are untouched. |
| `LightsAndSound.GameManager.FlashTile` | part2_lights_and_sound/Assets/Scripts/GameManager.cs:69-73 | Tile `index` of the array is shown lit, then the same slot is turned off. Every other slot is unchanged, and the tile keeps its place, hue and index. |
| `LightsAndSound.TurnedOff` | part2_lights_and_sound/Assets/Scripts/GameManager.cs:72 | Turning a slot's tile off leaves it unlit. Every other field of the tile is kept, and an empty slot stays empty. |
| `LightsAndSound.AfterFlashes` | part2_lights_and_sound/Assets/Scripts/GameManager.cs:69-73 | The tile array after a run of flashes keeps its length, and a slot holds a tile afterwards exactly when it held one before. |
| `LightsAndSound.MenuFlashes` | part2_lights_and_sound/Assets/Scripts/GameManager.cs:60-66 | The tiles the attract loop flashes are a prefix of the random picks, taken in order. |
| `LightsAndSound.ModeAtCheck` | part2_lights_and_sound/Assets/Scripts/GameManager.cs:61 | Definition of the mode the loop guard reads at its `k`-th check: the starting mode at the first check, then the mode left by the `k`-th wait. |
| `LightsAndSound.MenuFlashesWhileMenu` | part2_lights_and_sound/Assets/Scripts/GameManager.cs:60-66 | The loop flashes a tile only after a check that saw `Menu`, and it stops at the first check that sees another mode. |
| `LightsAndSound.AfterFlashesAt` | part2_lights_and_sound/Assets/Scripts/GameManager.cs:60-73 | After a run of flashes, a slot is turned off if it was flashed at least once, and otherwise it is as it was. |
| `LightsAndSound.GameManager.MenuTileAnimation` | part2_lights_and_sound/Assets/Scripts/GameManager.cs:60-66 | The loop flashes exactly `MenuFlashes` of its starting mode, and every flashed index is in `[0, numTiles)`. Each flashed tile was shown lit, recorded round by round in the ghost result `shown`. Flashed tiles end unlit, other tiles are unchanged, and the mode is the one seen at the last check. |
| `LightsAndSound.Clamp01` | part2_lights_and_sound/Assets/Scripts/GameManager.cs:83 | The fraction passed to `Mathf.Lerp` is limited to `[0, 1]`: kept when inside, 0 below, 1 above. |
| `LightsAndSound.Lerp` | part2_lights_and_sound/Assets/Scripts/GameManager.cs:83 | With the fraction clamped, a fraction at or below 0 gives the start value and one at or above 1 gives the end value. |
| `LightsAndSound.LerpBetweenEnds` | part2_lights_and_sound/Assets/Scripts/GameManager.cs:83 | The interpolated value never leaves the interval between the two ends. |
| `LightsAndSound.Pitch` | part2_lights_and_sound/Assets/Scripts/GameManager.cs:82-83 | For any index, the pitch lies in `[0.5, 2.0]` when there is more than one tile. |
| `LightsAndSound.PitchOfTile` | part2_lights_and_sound/Assets/Scripts/GameManager.cs:82-83 | For a tile of the board the pitch is `0.5 + 1.5 * index / (numTiles - 1)`. The first tile gets 0.5 and the last gets 2.0. |
| `LightsAndSound.PitchStrictlyIncreasing` | part2_lights_and_sound/Assets/Scripts/GameManager.cs:83 | Tiles with larger indices get strictly higher pitches, so every tile has its own pitch. |
| `LightsAndSound.PitchMonotonic` | part2_lights_and_sound/Assets/Scripts/GameManager.cs:83 | Over all integer indices, on the board or not, the pitch never decreases as the index grows. |
| `LightsAndSound.GameManager.PlayTone` | part2_lights_and_sound/Assets/Scripts/GameManager.cs:80-90 | With more than one tile the pitch becomes `Pitch(index, numTiles)`, and otherwise it is unchanged. The tone is scheduled from `now` to `now + duration`. |
| `LightsAndSound.GameManager.PlayLightAndTone` | part2_lights_and_sound/Assets/Scripts/GameManager.cs:75-78 | In any game mode, the pressed tile is shown lit (the ghost result `shown` is that tile with its lit flag set) and then ends unlit. Every other tile is unchanged, and the tone is played as `PlayTone` states. The game mode is not touched. |

## Left out

- Engine plumbing is not modelled: `Instantiate`, the transform hierarchy, `MonoBehaviour` lifecycle calls, and the owner reference passed to `Tile.Init`. Tiles are records, the container scale is a number, and the z coordinate (always 0) is dropped.
- `Color.HSVToRGB` is an engine conversion, so only the hue fraction is kept. The fixed saturation 0.8 and value 0.9 are not stored.
- `Tile.cs` is not part of this model. `TurnOn` and `TurnOff` are modelled as setting the tile's lit flag, and a newly built tile is taken to be unlit.
- `Random.Range(0, numTiles)` is replaced by supplied picks. A precondition requires each pick to be in `[0, numTiles)`, which is what `Random.Range(0, numTiles)` returns when `numTiles > 0`.
- Coroutine timing is not modelled. `WaitForSeconds` and the interleaving of other code during a wait are absent, apart from the mode changes described in the next line. `FlashTile` turns the tile on and off in one step, with the lit tile returned as a ghost value.
- `MenuTileAnimation`: the source loops for as long as the mode stays `Menu`, but the model runs at most one round per supplied pick. The mode that other code sets during each wait is the input `modeAfter`.
- `StartCoroutine(MenuTileAnimation())` in `Start` is not modelled as a call. The attract loop is a separate method, to be run after `Start`.
- The audio source's clock (`AudioSettings.dspTime`) is the parameter `now`. `PlayScheduled` and `SetScheduledEndTime` are modelled together as a `Schedule` value, and audio playback itself is out of scope.
- IEEE float rounding is out of scope: positions, hue, scale, pitch and times are exact reals.
- 32-bit wrap-around of `numRows * numCols` is not modelled, because tile counts are unbounded integers here.
- `Gameboard.GameManager.Start` and `LightsAndSound.GameManager.Start` require `numRows > 0` and `numCols >= 0`. The designer fields default to 3 rows and 4 columns (part1_creating_the_gameboard/Assets/Scripts/GameManager.cs:6-7), and the scale divides by `numRows`, so the model covers only boards with at least one row. The source's other cases are left out. With `numRows == 0` the scale `6f / numRows` is an infinite float. With a negative tile count the array allocation throws. With `numRows < 0` and `numCols <= 0` the source does not throw: the loops do not run, the array holds no tiles, and the scale is negative.
- `LightsAndSound.GameManager.PlayLightAndTone` requires `0 <= index < numTiles`. The tiles that call it pass their own index, and any other index makes the flash fail on the array access.
- The `Listening` and `Playing` modes are declared but never entered by this code, so the model defines no transitions into them.
- `LightsAndSound.GameManager.PlayLightAndTone` starts the flash as a coroutine and plays the tone while the tile is lit. The model finishes the flash first and then sets the tone, so the two overlap in the source but not here.
- `LightsAndSound.GameManager.FlashTile` requires `0 <= index < tile.Length` and a tile in that slot. The source calls `TurnOn` on `tile[index]`, which fails for an index out of range or a missing tile.
- `LightsAndSound.GameManager.MenuTileAnimation` does not model the throw on a board with no tiles. With `numCols == 0` the tile count is 0, `Random.Range(0, 0)` gives 0, and the first flash fails on the empty array. In the model the picks must lie in `[0, 0)`, so there are none, and the loop ends with no flash and the mode still `Menu`.
- `Gameboard.GameManager.constructor` and `LightsAndSound.GameManager.constructor` start `scale` at 1.0, which stands for an unscaled container. In the source the scale is a local of `Start`, and before `Start` the container has whatever scale the scene gives it.
