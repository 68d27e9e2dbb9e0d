/**
  Stage two of the game, "lights and sound": the same board build as stage
  one, plus a game mode that starts in the menu, an attract loop that keeps
  flashing random tiles while the game is in the menu, and a response to a
  pressed tile that flashes it and plays a tone whose pitch rises with the
  tile's index.

  The engine's coroutine scheduler, its random numbers and its audio clock are
  not modelled: the random picks, the game mode other code sets while the
  attract loop waits, and the audio clock's reading are parameters.
*/
module LightsAndSound {
  import opened Grid

  /** The game's modes. Only None (before Start) and Menu (after it) are
      reached by this code; Listening and Playing are declared only. */
  datatype GameMode = None | Menu | Listening | Playing

  /** What the audio source has been told to play: a tone from `start` to
      `end` on the audio clock, or nothing yet. */
  datatype Schedule = Unscheduled | Scheduled(start: real, end: real)

  // ---------------------------------------------------------------------------
  // Pitch
  // ---------------------------------------------------------------------------

  /** `t` limited to the unit interval. */
  function Clamp01(t: real): (c: real)
    ensures 0.0 <= c <= 1.0
    ensures 0.0 <= t <= 1.0 ==> c == t
    ensures t < 0.0 ==> c == 0.0
    ensures t > 1.0 ==> c == 1.0
  {
    if t < 0.0 then 0.0 else if t > 1.0 then 1.0 else t
  }

  /** The engine's linear interpolation from `a` to `b`, with the fraction `t`
      clamped to the unit interval first: at or below 0 it gives `a`, at or
      above 1 it gives `b`. */
  function Lerp(a: real, b: real, t: real): (r: real)
    ensures t <= 0.0 ==> r == a
    ensures t >= 1.0 ==> r == b
  {
    a + (b - a) * Clamp01(t)
  }

  /** Interpolating never leaves the interval between the two ends. */
  lemma LerpBetweenEnds(a: real, b: real, t: real)
    requires a <= b
    ensures a <= Lerp(a, b, t) <= b
  {
    var w, c := b - a, Clamp01(t);
    assert w * c + w * (1.0 - c) == w;
    ProductNonNegative(w, c);
    ProductNonNegative(w, 1.0 - c);
  }

  lemma WholeOverWhole(x: real, d: real)
    requires d > 0.0 && x == d
    ensures x / d == 1.0
  {
  }

  lemma ProductNonNegative(x: real, y: real)
    requires x >= 0.0 && y >= 0.0
    ensures x * y >= 0.0
  {
  }

  /** `x / d` lies in the unit interval when `0 <= x <= d`. */
  lemma FractionInUnit(x: real, d: real)
    requires d > 0.0 && 0.0 <= x <= d
    ensures 0.0 <= x / d <= 1.0
  {
    assert (x / d) * d == x;
  }

  /** The pitch of tile `index` on a board of `numTiles` tiles: from 0.5 for
      the first tile to 2.0 for the last. */
  function Pitch(index: int, numTiles: int): (p: real)
    requires numTiles > 1
    ensures 0.5 <= p <= 2.0
  {
    var t := index as real / (numTiles as real - 1.0);
    LerpBetweenEnds(0.5, 2.0, t);
    Lerp(0.5, 2.0, t)
  }

  /** For a tile of the board the clamp never applies: the pitch is the
      straight-line interpolation, 0.5 at the first tile and 2.0 at the last. */
  lemma PitchOfTile(index: int, numTiles: int)
    requires numTiles > 1 && 0 <= index < numTiles
    ensures Pitch(index, numTiles) == 0.5 + 1.5 * (index as real / (numTiles as real - 1.0))
    ensures index == 0 ==> Pitch(index, numTiles) == 0.5
    ensures index == numTiles - 1 ==> Pitch(index, numTiles) == 2.0
  {
    var d := numTiles as real - 1.0;
    FractionInUnit(index as real, d);
    if index == numTiles - 1 {
      WholeOverWhole(index as real, d);
    }
  }

  /** Tiles further along the board sound strictly higher, so every tile has a
      pitch of its own. */
  lemma PitchStrictlyIncreasing(i: int, j: int, numTiles: int)
    requires numTiles > 1 && 0 <= i < j < numTiles
    ensures Pitch(i, numTiles) < Pitch(j, numTiles)
  {
    PitchOfTile(i, numTiles);
    PitchOfTile(j, numTiles);
    var d := numTiles as real - 1.0;
    assert j as real / d - i as real / d == (j - i) as real / d;
  }

  /** Over all indices, on the board or not, the pitch never falls as the
      index grows. */
  lemma PitchMonotonic(i: int, j: int, numTiles: int)
    requires numTiles > 1 && i <= j
    ensures Pitch(i, numTiles) <= Pitch(j, numTiles)
  {
    var d := numTiles as real - 1.0;
    assert j as real / d - i as real / d == (j - i) as real / d;
  }

  // ---------------------------------------------------------------------------
  // The attract loop
  // ---------------------------------------------------------------------------

  /** The mode the attract loop sees at its `k`-th check: the mode it started
      with, then the mode other code has set by the end of each wait. */
  function ModeAtCheck(start: GameMode, modeAfter: seq<GameMode>, k: nat): GameMode
    requires k <= |modeAfter|
  {
    if k == 0 then start else modeAfter[k - 1]
  }

  /** The tiles the attract loop flashes, in order, when it starts in mode
      `mode`, draws the tiles `picks`, and finds the mode `modeAfter[k]` after
      the wait that follows its `k`-th flash. */
  function MenuFlashes(mode: GameMode, picks: seq<int>, modeAfter: seq<GameMode>): (flashed: seq<int>)
    requires |modeAfter| == |picks|
    ensures |flashed| <= |picks| && flashed == picks[..|flashed|]
    decreases |picks|
  {
    if picks == [] || mode != Menu then []
    else [picks[0]] + MenuFlashes(modeAfter[0], picks[1..], modeAfter[1..])
  }

  /** The attract loop flashes exactly while it finds the game in the menu:
      every flash follows a check that saw Menu, and it stops at the first
      check that sees another mode, never flashing again. */
  lemma {:induction false} MenuFlashesWhileMenu(mode: GameMode, picks: seq<int>, modeAfter: seq<GameMode>)
    requires |modeAfter| == |picks|
    decreases |picks|
    ensures var n := |MenuFlashes(mode, picks, modeAfter)|;
            && (forall k :: 0 <= k < n ==> ModeAtCheck(mode, modeAfter, k) == Menu)
            && (n < |picks| ==> ModeAtCheck(mode, modeAfter, n) != Menu)
  {
    if picks != [] && mode == Menu {
      MenuFlashesWhileMenu(modeAfter[0], picks[1..], modeAfter[1..]);
      forall k | 1 <= k <= |picks|
        ensures ModeAtCheck(mode, modeAfter, k) == ModeAtCheck(modeAfter[0], modeAfter[1..], k - 1)
      {
      }
    }
  }

  /** One round of the attract loop: when the `k`-th check finds the menu,
      the loop flashes `picks[k]` and hands over to the next check. */
  lemma MenuFlashesStep(start: GameMode, picks: seq<int>, modeAfter: seq<GameMode>, k: nat)
    requires |modeAfter| == |picks| && k < |picks|
    requires MenuFlashes(start, picks, modeAfter) == picks[..k] + MenuFlashes(Menu, picks[k..], modeAfter[k..])
    ensures picks[..k + 1] == picks[..k] + [picks[k]]
    ensures MenuFlashes(start, picks, modeAfter)
            == picks[..k + 1] + MenuFlashes(modeAfter[k], picks[k + 1..], modeAfter[k + 1..])
  {
    assert picks[k..][1..] == picks[k + 1..] && modeAfter[k..][1..] == modeAfter[k + 1..];
    assert picks[..k + 1] == picks[..k] + [picks[k]];
  }

  /** The slot with its tile turned off. */
  function TurnedOff(s: Slot): (r: Slot)
    ensures r.Filled? == s.Filled?
    ensures s.Filled? ==> !r.tile.lit && r.tile.(lit := s.tile.lit) == s.tile
  {
    if s.Filled? then Filled(s.tile.(lit := false)) else s
  }

  /** The tile array after flashing the tiles `flashed`, one after another. */
  function AfterFlashes(slots: seq<Slot>, flashed: seq<int>): (r: seq<Slot>)
    ensures |r| == |slots|
    ensures forall i :: 0 <= i < |r| ==> r[i].Filled? == slots[i].Filled?
    decreases |flashed|
  {
    if flashed == [] then slots
    else
      var before, p := AfterFlashes(slots, flashed[..|flashed| - 1]), flashed[|flashed| - 1];
      if 0 <= p < |before| then before[p := TurnedOff(before[p])] else before
  }

  /** Flashing one more tile `p` turns that slot off and leaves the rest. */
  lemma AfterOneMoreFlash(slots: seq<Slot>, flashed: seq<int>, p: int)
    requires 0 <= p < |slots|
    ensures var before := AfterFlashes(slots, flashed);
            AfterFlashes(slots, flashed + [p]) == before[p := TurnedOff(before[p])]
  {
    assert (flashed + [p])[..|flashed|] == flashed;
  }

  /** After a run of flashes, every flashed slot is turned off and every other
      slot is as it was. */
  lemma {:induction false} AfterFlashesAt(slots: seq<Slot>, flashed: seq<int>, i: int)
    requires 0 <= i < |slots|
    ensures AfterFlashes(slots, flashed)[i] == if i in flashed then TurnedOff(slots[i]) else slots[i]
    decreases |flashed|
  {
    if flashed != [] {
      var init := flashed[..|flashed| - 1];
      AfterFlashesAt(slots, init, i);
      assert flashed == init + [flashed[|flashed| - 1]];
      assert i in flashed <==> i in init || i == flashed[|flashed| - 1];
    }
  }

  // ---------------------------------------------------------------------------
  // The controller
  // ---------------------------------------------------------------------------

  class GameManager {
    /** The designer-set board size and the length of a flash, of the gap
        between flashes and of a tone. */
    const numRows: int
    const numCols: int
    const duration: real
    /** Set by Start: the number of tiles and the array holding them
        (`null` until Start runs). */
    var numTiles: int
    var tile: array?<Slot>
    /** The uniform scale of the board container. */
    var scale: real
    var gameMode: GameMode
    /** The audio source's pitch and the tone it has been told to play. */
    var pitch: real
    var schedule: Schedule
    /** The board Start built: slot `i` holds `board[i]`, lit or not. */
    ghost var board: seq<Tile>

    /** After Start: the tile array holds the board, each tile in its own slot
        with its own hue and position, lit or not; the container is scaled for
        the row count. */
    ghost predicate Valid()
      reads this`numTiles, this`tile, this`scale, this`board, tile
    {
      && numRows > 0 && numCols >= 0
      && numTiles == numRows * numCols
      && tile != null && tile.Length == numTiles == |board|
      && (forall i :: 0 <= i < numTiles ==> tile[i].Filled? && tile[i].tile.(lit := false) == board[i])
      && scale == Scale(numRows)
    }

    /** The controller as the engine creates it, before Start: the game mode
        is None. */
    constructor (numRows: int, numCols: int, duration: real, pitch: real)
      ensures this.numRows == numRows && this.numCols == numCols && this.duration == duration
      ensures numTiles == 0 && tile == null && scale == 1.0
      ensures gameMode == None
      ensures this.pitch == pitch && schedule == Unscheduled
    {
      this.numRows, this.numCols, this.duration := numRows, numCols, duration;
      numTiles, tile, scale := 0, null, 1.0;
      gameMode := None;
      this.pitch, schedule := pitch, Unscheduled;
      board := [];
    }

    /** Builds the board as stage one does, all tiles unlit, and enters the
        menu. The audio source is untouched. */
    method Start()
      requires numRows > 0 && numCols >= 0
      modifies this
      ensures Valid() && fresh(tile)
      ensures numTiles == numRows * numCols && tile.Length == numTiles
      ensures board == Board(numRows, numCols)
      ensures forall i :: 0 <= i < numTiles ==> tile[i] == Filled(BoardTile(numRows, numCols, i))
      ensures numRows as real * scale == 6.0
      ensures gameMode == Menu
      ensures pitch == old(pitch) && schedule == old(schedule)
    {
      numTiles := numRows * numCols;
      tile := new Slot[numTiles](_ => Empty);
      ghost var writes := FillGrid(tile, numRows, numCols);
      scale := 6.0 / numRows as real;
      gameMode := Menu;
      board := Board(numRows, numCols);
    }

    /** Flashes tile `index`: turns it on (`shown` is the tile while lit),
        then turns the same tile off. No other slot changes. */
    method FlashTile(index: int) returns (ghost shown: Tile)
      requires tile != null && 0 <= index < tile.Length && tile[index].Filled?
      modifies tile
      ensures shown == old(tile[index]).tile.(lit := true)
      ensures tile[..] == old(tile[..])[index := TurnedOff(old(tile[index]))]
    {
      tile[index] := Filled(tile[index].tile.(lit := true));
      shown := tile[index].tile;
      tile[index] := Filled(tile[index].tile.(lit := false));
    }

    /** The attract loop: while the game is in the menu, flash the next random
        tile, then wait, during which other code may change the mode to
        `modeAfter[k]`. Every pick is a tile of the board. */
    method MenuTileAnimation(picks: seq<int>, modeAfter: seq<GameMode>) returns (flashed: seq<int>, ghost shown: seq<Tile>)
      requires Valid()
      requires |modeAfter| == |picks|
      requires forall k :: 0 <= k < |picks| ==> 0 <= picks[k] < numTiles
      modifies this`gameMode, tile
      ensures Valid()
      ensures flashed == MenuFlashes(old(gameMode), picks, modeAfter)
      ensures forall k :: 0 <= k < |flashed| ==> 0 <= flashed[k] < numTiles
      ensures gameMode == ModeAtCheck(old(gameMode), modeAfter, |flashed|)
      ensures |shown| == |flashed|
      ensures forall k :: 0 <= k < |flashed| ==> shown[k] == old(tile[flashed[k]]).tile.(lit := true)
      ensures tile[..] == AfterFlashes(old(tile[..]), flashed)
    {
      ghost var startMode, startTiles := gameMode, tile[..];
      var k := 0;
      flashed, shown := [], [];
      while k < |picks| && gameMode == Menu
        invariant 0 <= k <= |picks|
        invariant flashed == picks[..k]
        invariant gameMode == ModeAtCheck(startMode, modeAfter, k)
        invariant MenuFlashes(startMode, picks, modeAfter) == picks[..k] + MenuFlashes(gameMode, picks[k..], modeAfter[k..])
        invariant tile[..] == AfterFlashes(startTiles, picks[..k])
        invariant |shown| == k
        invariant forall j :: 0 <= j < k ==> shown[j] == startTiles[picks[j]].tile.(lit := true)
      {
        MenuFlashesStep(startMode, picks, modeAfter, k);
        AfterFlashesAt(startTiles, picks[..k], picks[k]);
        AfterOneMoreFlash(startTiles, picks[..k], picks[k]);
        ghost var lit := FlashTile(picks[k]);
        flashed, shown := flashed + [picks[k]], shown + [lit];
        gameMode := modeAfter[k];
        k := k + 1;
      }
      forall i | 0 <= i < numTiles
        ensures tile[i].Filled? && tile[i].tile.(lit := false) == board[i]
      {
        AfterFlashesAt(startTiles, flashed, i);
      }
    }

    /** Sets the pitch for tile `index` (only when there is more than one tile)
        and schedules a tone from the audio clock's reading `now` to `now + duration`. */
    method PlayTone(index: int, now: real)
      modifies this`pitch, this`schedule
      ensures pitch == if numTiles > 1 then Pitch(index, numTiles) else old(pitch)
      ensures schedule == Scheduled(now, now + duration)
    {
      if numTiles > 1 {
        pitch := Lerp(0.5, 2.0, index as real / (numTiles as real - 1.0));
      }
      var currentTime := now;
      schedule := Scheduled(currentTime, currentTime + duration);
    }

    /** The response to a pressed tile, in any game mode: flashes the tile
        (`shown` is the tile while lit) and plays its tone. */
    method PlayLightAndTone(index: int, now: real) returns (ghost shown: Tile)
      requires Valid() && 0 <= index < numTiles
      modifies tile, this`pitch, this`schedule
      ensures Valid()
      ensures shown == old(tile[index]).tile.(lit := true)
      ensures tile[index] == Filled(old(tile[index]).tile.(lit := false))
      ensures forall i :: 0 <= i < numTiles && i != index ==> tile[i] == old(tile[i])
      ensures pitch == if numTiles > 1 then Pitch(index, numTiles) else old(pitch)
      ensures schedule == Scheduled(now, now + duration)
    {
      shown := FlashTile(index);
      PlayTone(index, now);
    }
  }
}
