# Tile maze: a Dafny model of the level, the player and the game loop

This project models the rules of a small p5.js tile-maze game in Dafny 4.11.

A level is a rectangular grid of tile codes: 0 floor, 1 wall, 2 start, 3 goal, 4 power-up and 5 coin. The player moves one tile per key press. Moves are throttled to one every 90 ms, and the player cannot enter walls or leave the grid. A power-up makes the player glow for 5000 ms. A coin is worth 100 points, but only during the first 15000 ms after the level was entered. Reaching the goal enters the next level, and the last level wraps around to the first.

The three modules follow the three source files:

- `level.dfy`, module `MazeLevel` (level.js): the class `Level`.
  - Its grid is an `array2<int>` handed in by the caller. The constructor overwrites the first start tile of that array with floor, in place.
  - It keeps the collected cells as a `seq<Cell>` that is appended to and never deduplicated.
  - It keeps the clock reading at which the coin window opened.
  - It answers the bounds and tile-kind queries.
- `player.dfy`, module `MazePlayer` (player.js): the class `Player`, with the fields `r`, `c`, `movedAt`, `isGlowing` and `glowStartTime`.
  - `TryMove` and `UpdateGlow` are proved against the ghost functions `Step` and `GlowAfterUpdate`.
  - `Run` replays a sequence of key presses through `Step`. The lemmas about `Run` state what holds across many moves.
- `game.dfy`, module `MazeGame` (sketch.js): the sketch's globals `levels`, `li`, `score` and `player` become the fields of the class `Game`.
  - `setup` becomes the constructor.
  - `keyPressed`, `loadLevel` and `nextLevel` become methods.
  - `copyGrid` becomes a method that returns a fresh array.
  - `SmallMazeWalkthrough` and `PlaySmallMaze` are a client that plays the grid `[[2, 0], [1, 3]]` through the contracts alone. The start becomes floor, moving down into the wall is refused, and moving right then down reaches the goal. With a single level, the goal then re-enters that same level.

Time is never read from a clock. Every operation that reads `millis()` in the source takes an explicit integer `now` instead. One key press is handled at a single instant: when `tryMove` is followed by `nextLevel`, both see the same `now`.

`updateGlow` reads the globals `levels[li]` and `player` in the source. Here it takes the active level as a parameter and uses the player's own fields. `Game.RefreshGlow` passes it the active level, as the draw loop does.

The tile queries `InBounds`, `TileAt`, `IsWall`, `IsGoal`, `IsPowerUp`, `IsCoin`, `IsCollected` and `CoinsStillAvailable` are plain expressions, as in the source. `Rows()` and `Cols()` are the grid's two dimensions and have no contract of their own. Their meaning is stated through the members that use them: `InBounds` says which cells exist, and `PixelWidth`/`PixelHeight` say how far the tiles reach. Each other query's contract ties it to an independent reading: the cells of the array, the array cell itself, the tile legend (`KindOf`, the codes 0–5 listed at the top of level.js), a search of the collected list, or the coin countdown.

`TileAt` and the `Is*` queries require `InBounds`. The source reads `grid[r][c]` without a check. An out-of-range row throws. An in-range row with an out-of-range column yields `undefined`, so every `is*` query answers false without throwing. The requires excludes both cases, and no caller reaches either: every caller in the source checks bounds first, or only asks about a cell the player moved to. `Game.Valid` records the one invariant this needs: a glowing player stands inside the active level.

`Cols()` reads row 0, so it and `PixelWidth` require a non-empty grid; `Rows()` and `PixelHeight` read only the number of rows and require nothing. `array2` makes the grid rectangular. The game requires every level to have a row, because entering a level sizes the canvas from `PixelWidth`/`PixelHeight`.

## Model

| member | source | states |
|---|---|---|
| `MazeLevel.Level.constructor` | level.js:21-42 | keeps the given array as the grid; `start` is the first start tile in row-major order of the array as it was handed in, or None; that tile, and no other, now reads as floor; no cells are collected; the coin window opens at `now` |
| `MazeLevel.Level.FindStart` | level.js:116-125 | the row-by-row scan returns the first cell in row-major order holding the start code, or None when no cell does |
| `MazeLevel.Level.InBounds` | level.js:46-66 | with rows() and cols() (lines 46-52) as the grid's dimensions, the check at lines 64-66 holds exactly for the cells of the array, 0 ≤ r < first dimension and 0 ≤ c < second dimension; an empty grid has no cell in bounds |
| `MazeLevel.Level.TileAt` | level.js:68-70 | the bounds check suffices for the array access, and the answer is the code stored in that cell, not a clamped or default value |
| `MazeLevel.Level.IsWall` | level.js:72-74 | true exactly when the legend reads the cell's code as a wall |
| `MazeLevel.Level.IsGoal` | level.js:76-78 | true exactly when the legend reads the cell's code as the goal |
| `MazeLevel.Level.IsPowerUp` | level.js:81-83 | true exactly when the legend reads the cell's code as a power-up |
| `MazeLevel.Level.IsCoin` | level.js:86-88 | true exactly when the legend reads the cell's code as a coin |
| `MazeLevel.Level.IsCollected` | level.js:91-94 | true exactly when some entry of the collected list has row r and column c |
| `MazeLevel.Level.PixelWidth` | level.js:50-56 | cols() times the tile size; for a non-negative tile size, every column's tile fits inside the canvas width |
| `MazeLevel.Level.PixelHeight` | level.js:46-60 | rows() (lines 46-48) times the tile size (lines 58-60); for a non-negative tile size, every row's tile fits inside the canvas height |
| `MazeLevel.TilesFit` | level.js:54-60 | helper for `PixelWidth`/`PixelHeight`: tile k of a run of n tiles of size ts ends by n·ts |
| `MazeLevel.TileKindsExclusive` | level.js:72-88 | wall, goal, power-up and coin test distinct codes, so at most one holds for a cell |
| `MazeLevel.Level.CollectItem` | level.js:97-100 | appends the cell; afterwards it reads as collected and every other cell's answer is unchanged |
| `MazeLevel.CollectTwiceSameMembership` | level.js:91-100 | appending a cell a second time changes no membership answer |
| `MazeLevel.CoinWindowEdges` | level.js:103-106 | coins are available at elapsed 14999 and not at 15000; availability is monotone in time |
| `MazeLevel.Level.CoinsStillAvailable` | level.js:103-106 | coins are available at `now` exactly while the countdown still shows a positive number of seconds |
| `MazeLevel.Level.ResetTimer` | level.js:109-112 | the window reopens at `now`; nothing is collected; coins are available for exactly the next 15000 ms |
| `MazeLevel.CoinSecondsRemaining` | level.js:204-206 | the countdown is the ceiling of max(0, 15000 − elapsed)/1000; it is never negative, at most 15 for a non-negative elapsed time, and 0 exactly when the window has closed |
| `MazeLevel.Level.CoinTimerSeconds` | level.js:203-209 | the seconds shown at `now` are never negative, at most 15 once the window has opened (now ≥ the level's start time), and are positive exactly while coins are available, so the timer shows exactly while the window is open |
| `MazePlayer.Step` | player.js:111-157 | throttled (now − movedAt < 90): rejected, nothing changes; target out of bounds or a wall: rejected, nothing changes; otherwise moved, now on the target, movedAt = now; an uncollected power-up is collected, turns glow on at `now` and reports powerup; an uncollected coin is collected only while the window is open and reports coin; otherwise no item, no collection, and the glow is unchanged |
| `MazePlayer.Player.TryMove` | player.js:111-157 | the result, the player's new fields and the level's collected cells are exactly those of `Step` on the old state; the grid is untouched |
| `MazePlayer.GlowAfterUpdate` | player.js:55-65 | never turns glow on; when glowing, it turns glow off after more than 5000 ms (still on at exactly 5000) or on the goal, and keeps it on otherwise |
| `MazePlayer.Player.UpdateGlow` | player.js:55-65 | the new glow flag is `GlowAfterUpdate` of the old state on the level passed in |
| `MazePlayer.Player.constructor` | player.js:16-31 | the player starts at (0, 0), never moved (movedAt 0), not glowing |
| `MazePlayer.Player.SetCell` | player.js:34-37 | moves to (r, c) without any check and changes nothing else |
| `MazePlayer.Player.ActivateGlow` | player.js:49-52 | glow on, started at `now` |
| `MazePlayer.Run` | player.js:111-157 | helper for the lemmas below, which state what it means: replaying n presses through `Step` yields one result per press |
| `MazePlayer.RunKeepsPlacement` | player.js:122-134 | from an in-bounds non-wall cell, every sequence of moves ends in bounds and off walls |
| `MazePlayer.RunAcceptedAfterStart` | player.js:114-134 | every accepted move of a sequence comes at least 90 ms after the player's starting movedAt |
| `MazePlayer.RunMovesSpaced` | player.js:114-134 | any two accepted moves of a sequence are at least 90 ms apart |
| `MazePlayer.RunCollectsOnce` | player.js:139-154 | the collected cells only grow, by exactly one per reported pickup; starting without duplicates, no cell is ever collected twice, so each power-up or coin triggers its effect once per level entry |
| `MazeGame.KeyDelta` | sketch.js:131-138 | a non-movement key gives no step; each movement key gives one of the four cardinal steps, with left, then right, then up, then down taking precedence |
| `MazeGame.NextIndex` | sketch.js:193-200 | the next index stays in range, is li + 1 below the last level, and wraps from the last level to 0 |
| `MazeGame.CopyGrid` | sketch.js:205-214 | returns a fresh array of the same shape, equal cell by cell |
| `MazeGame.Game.constructor` | sketch.js:60-90 | builds one Level per source grid, in order, each on its own fresh copy; no two levels are the same object and no two share a grid, and `Valid` keeps this; the source grids are left unchanged; each level's start is the first start tile of its source grid, and its grid equals that source except that the start tile reads as floor; then enters level 0 with score 0 |
| `MazeGame.Game.LoadLevel` | sketch.js:163-191 | sets li = idx, turns glow off, restarts that level's coin window and empties its collected cells, and places the player at the level's start or at (1, 1) when there is none |
| `MazeGame.Game.NextLevel` | sketch.js:193-201 | enters level (li + 1) mod the number of levels |
| `MazeGame.Game.KeyPressed` | sketch.js:127-159 | a non-movement key changes nothing; otherwise the score rises by 100 exactly when the move reports a coin; the next level is entered exactly when the move was accepted and landed on the goal; when there is more than one level, the level left behind is unchanged; otherwise the player and the active level are as `Step` leaves them; no other level changes |
| `MazeGame.Game.RefreshGlow` | sketch.js:92-97 | the per-frame glow update is `GlowAfterUpdate` on the active level, and the game invariant is kept |

## Left out

- Drawing is not modelled. This covers `Level.draw`, the text and fill calls of `drawCoinTimer`, `Player.draw`, `pixelX`/`pixelY`, `drawHUD` and `resizeCanvas`. They only call p5's drawing functions, with fractional sizes. `LoadLevel` still evaluates the canvas size, because the source needs a non-empty grid for it.
- The clock (`millis()`) is not modelled. It is an explicit `now` argument, and the model does not require it to be monotone.
- JSON loading is not modelled: `preload`/`loadJSON`, the console and alert messages, `noLoop`, `textFont` and the commented-out sounds. The source grids are handed to the `Game` constructor as arrays.
- The load-failure branch of `setup` is not modelled. It only reports the error and stops the draw loop.
- An empty `levels` list is excluded by the constructor's requirement of at least one grid. In the source such a list passes the load check, and then `loadLevel(0)` crashes when it calls `resetTimer` on `undefined` (sketch.js:179). The requirement models that crash.
- Ragged grids are not modelled. JavaScript rows may differ in length, but `cols()` reads row 0 only. The grid is an `array2`, so every row has row 0's width.
- Tile codes outside 0–5 are not rejected, because the source does not validate them either. Such a cell is not a wall, so the player can walk on it.
- `MazeLevel.Level.FindStart` is a static method that takes the array, where the source has an instance method. The constructor uses it before the object exists, and it reads nothing else.
