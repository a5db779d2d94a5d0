/** The game: the list of levels, the active level index, the score and the
    player, and the handlers that change them. */
module MazeGame {
  import opened MazeLevel
  import opened MazePlayer

  /** Tile size in pixels. */
  const TS := 32
  /** Points a coin is worth. */
  const CoinPoints := 100

  // p5.js key codes of the arrow keys.
  const LeftArrow := 37
  const UpArrow := 38
  const RightArrow := 39
  const DownArrow := 40

  /** A key event: the key code and the character typed. */
  datatype Key = Key(keyCode: int, key: char)

  predicate IsLeftKey(k: Key) { k.keyCode == LeftArrow || k.key == 'a' || k.key == 'A' }
  predicate IsRightKey(k: Key) { k.keyCode == RightArrow || k.key == 'd' || k.key == 'D' }
  predicate IsUpKey(k: Key) { k.keyCode == UpArrow || k.key == 'w' || k.key == 'W' }
  predicate IsDownKey(k: Key) { k.keyCode == DownArrow || k.key == 's' || k.key == 'S' }

  /** One step along a row or a column. */
  predicate Cardinal(dr: int, dc: int) {
    (dr == 0 && (dc == 1 || dc == -1)) || (dc == 0 && (dr == 1 || dr == -1))
  }

  /** The step a key asks for: left, right, up, down are tried in that order. */
  function KeyDelta(k: Key): (d: Option<(int, int)>)
    ensures d.None? <==> !IsLeftKey(k) && !IsRightKey(k) && !IsUpKey(k) && !IsDownKey(k)
    ensures d.Some? ==> Cardinal(d.value.0, d.value.1)
    ensures d == Some((0, -1)) ==> IsLeftKey(k)
    ensures d == Some((0, 1)) ==> IsRightKey(k)
    ensures d == Some((-1, 0)) ==> IsUpKey(k)
    ensures d == Some((1, 0)) ==> IsDownKey(k)
    ensures IsLeftKey(k) ==> d == Some((0, -1))
    ensures !IsLeftKey(k) && IsRightKey(k) ==> d == Some((0, 1))
    ensures !IsLeftKey(k) && !IsRightKey(k) && IsUpKey(k) ==> d == Some((-1, 0))
    ensures !IsLeftKey(k) && !IsRightKey(k) && !IsUpKey(k) && IsDownKey(k) ==> d == Some((1, 0))
  {
    if IsLeftKey(k) then Some((0, -1))
    else if IsRightKey(k) then Some((0, 1))
    else if IsUpKey(k) then Some((-1, 0))
    else if IsDownKey(k) then Some((1, 0))
    else None
  }

  /** The index after `li` in a list of `n` levels, wrapping to the first. */
  function NextIndex(li: int, n: int): (next: int)
    requires 0 <= li < n
    ensures 0 <= next < n
    ensures li < n - 1 ==> next == li + 1
    ensures li == n - 1 ==> next == 0
  {
    (li + 1) % n
  }

  /** Where the player enters a level: its start cell, or (1, 1) unchecked. */
  function Spawn(l: Level): Cell {
    match l.start
    case Some(p) => p
    case None => Cell(1, 1)
  }

  /** A fresh copy of `src`, cell by cell, so that changes to the copy leave `src` alone. */
  method CopyGrid(src: array2<int>) returns (dst: array2<int>)
    ensures fresh(dst)
    ensures dst.Length0 == src.Length0 && dst.Length1 == src.Length1
    ensures forall i, j | 0 <= i < src.Length0 && 0 <= j < src.Length1 :: dst[i, j] == src[i, j]
  {
    dst := new int[src.Length0, src.Length1]((i, j) reads src =>
      if 0 <= i < src.Length0 && 0 <= j < src.Length1 then src[i, j] else 0);
  }

  /** No two levels are the same object, and no two share a grid. */
  predicate DistinctLevels(ls: seq<Level>) {
    forall i, j | 0 <= i < j < |ls| :: ls[i] != ls[j] && ls[i].grid != ls[j].grid
  }

  class Game {
    const levels: seq<Level>
    const player: Player
    /** Index of the active level. */
    var li: int
    var score: int

    /** Every level has a row (the canvas size needs one), the levels are distinct
        objects on distinct grids, the index is in range, and a glowing player
        stands inside the active level. */
    ghost predicate Valid()
      reads this, player
    {
      LevelsReady() && 0 <= li < |levels| &&
      (player.isGlowing ==> levels[li].InBounds(player.r, player.c))
    }

    predicate LevelsReady() {
      |levels| > 0 && (forall i | 0 <= i < |levels| :: levels[i].Rows() > 0) &&
      DistinctLevels(levels)
    }

    /** Level `idx` has just been entered at `now`. */
    ghost predicate Entered(idx: int, now: int)
      requires 0 <= idx < |levels|
      reads this, player, levels[idx]
    {
      li == idx && !player.isGlowing &&
      levels[idx].levelStartTime == now && levels[idx].collected == [] &&
      Cell(player.r, player.c) == Spawn(levels[idx])
    }

    /** Builds one Level per grid of `data`, in order, each on its own copy, and
        enters the first one. */
    constructor (data: seq<array2<int>>, now: int)
      requires |data| > 0
      requires forall i | 0 <= i < |data| :: data[i].Length0 > 0
      ensures Valid() && Entered(0, now) && score == 0
      ensures fresh(player) && player.movedAt == 0 && player.glowStartTime == 0
      ensures |levels| == |data| && DistinctLevels(levels)
      ensures forall i | 0 <= i < |levels| ::
        fresh(levels[i]) && fresh(levels[i].grid) && levels[i].ts == TS &&
        levels[i].collected == [] && levels[i].levelStartTime == now
      ensures forall i | 0 <= i < |levels| ::
        levels[i].grid.Length0 == data[i].Length0 && levels[i].grid.Length1 == data[i].Length1 &&
        IsFirstStart(data[i], levels[i].start)
      ensures forall i, r, c | 0 <= i < |levels| && 0 <= r < data[i].Length0 && 0 <= c < data[i].Length1 ::
        levels[i].grid[r, c] == if levels[i].start == Some(Cell(r, c)) then FloorTile else data[i][r, c]
      ensures forall i, r, c | 0 <= i < |data| && 0 <= r < data[i].Length0 && 0 <= c < data[i].Length1 ::
        data[i][r, c] == old(data[i][r, c])
    {
      var built: seq<Level> := [];
      var k := 0;
      while k < |data|
        invariant 0 <= k <= |data| && |built| == k && DistinctLevels(built)
        invariant forall i | 0 <= i < k ::
          fresh(built[i]) && fresh(built[i].grid) && built[i].ts == TS &&
          built[i].collected == [] && built[i].levelStartTime == now
        invariant forall i | 0 <= i < k ::
          built[i].grid.Length0 == data[i].Length0 && built[i].grid.Length1 == data[i].Length1 &&
          IsFirstStart(data[i], built[i].start)
        invariant forall i, r, c | 0 <= i < k && 0 <= r < data[i].Length0 && 0 <= c < data[i].Length1 ::
          built[i].grid[r, c] == if built[i].start == Some(Cell(r, c)) then FloorTile else data[i][r, c]
      {
        var g := CopyGrid(data[k]);
        var l := new Level(g, TS, now);
        built := built + [l];
        k := k + 1;
      }
      levels := built;
      player := new Player(TS);
      li := 0;
      score := 0;
      new;
      LoadLevel(0, now);
    }

    /** Makes level `idx` active: clears the glow, restarts the level's coin window
        and collections, and puts the player on the level's spawn cell. */
    method LoadLevel(idx: int, now: int)
      requires LevelsReady() && 0 <= idx < |levels|
      modifies this`li, player`isGlowing, player`r, player`c
      modifies levels[idx]
      ensures Valid() && Entered(idx, now)
    {
      li := idx;
      var level := levels[li];
      player.isGlowing := false;
      level.ResetTimer(now);
      match level.start {
        case Some(p) => player.SetCell(p.r, p.c);
        case None => player.SetCell(1, 1);
      }
      // The canvas is resized to these; drawing is not modelled.
      var width, height := level.PixelWidth(), level.PixelHeight();
    }

    method NextLevel(now: int)
      requires Valid()
      modifies this`li, player`isGlowing, player`r, player`c
      modifies levels[NextIndex(li, |levels|)]
      ensures Valid() && Entered(NextIndex(old(li), |levels|), now)
    {
      var next := NextIndex(li, |levels|);
      LoadLevel(next, now);
    }

    /** Handles a key: a movement key is handed to the player as one step on the
        active level; a coin scores, and reaching the goal enters the next level. */
    method KeyPressed(k: Key, now: int)
      requires Valid()
      modifies this`li, this`score, player, set l | l in levels
      ensures Valid()
      ensures KeyDelta(k).None? ==>
        unchanged(this, player) && forall l | l in levels :: unchanged(l)
      ensures KeyDelta(k).Some? ==>
        var d := KeyDelta(k).value;
        var (res, a, col) := old(Step(player.State(), levels[li], levels[li].collected, d.0, d.1, now));
        var advance := res.moved && levels[old(li)].IsGoal(a.r, a.c);
        score == old(score) + (if res.item == CoinItem then CoinPoints else 0) &&
        (advance ==>
          Entered(NextIndex(old(li), |levels|), now) &&
          player.movedAt == a.movedAt && player.glowStartTime == a.glowStart &&
          (|levels| > 1 ==> unchanged(levels[old(li)]))) &&
        (!advance ==>
          li == old(li) && player.State() == a &&
          levels[li].collected == col && levels[li].levelStartTime == old(levels[li].levelStartTime))
      ensures forall l | l in levels && l != levels[li] && l != old(levels[li]) :: unchanged(l)
    {
      var d := KeyDelta(k);
      if d.None? {
        return;
      }
      var (dr, dc) := d.value;
      var result := player.TryMove(levels[li], dr, dc, now);
      if result.moved {
        if result.item == CoinItem {
          score := score + CoinPoints;
        }
        if levels[li].IsGoal(player.r, player.c) {
          NextLevel(now);
        }
      }
    }

    /** The glow update the draw loop runs each frame, on the active level. */
    method RefreshGlow(now: int)
      requires Valid()
      modifies player`isGlowing
      ensures Valid()
      ensures player.isGlowing == old(GlowAfterUpdate(player.State(), levels[li], now))
    {
      player.UpdateGlow(levels[li], now);
    }
  }

  /** A client of the game on the grid [[2, 0], [1, 3]]: the start tile becomes
      floor and the player enters on it. */
  method SmallMazeWalkthrough()
  {
    var g := new int[2, 2];
    g[0, 0], g[0, 1], g[1, 0], g[1, 1] := StartTile, FloorTile, WallTile, GoalTile;
    var game := new Game([g], 0);
    var level := game.levels[0];
    assert IsFirstStart(g, level.start);
    assert level.start == Some(Cell(0, 0)) by {
      if level.start != Some(Cell(0, 0)) {
        assert g[0, 0] == StartTile;
        assert RowMajorBefore(Cell(0, 0), level.start.value);
      }
    }
    assert g[0, 1] == FloorTile && g[1, 0] == WallTile && g[1, 1] == GoalTile;
    assert level.grid[0, 0] == FloorTile;
    assert level.grid[0, 1] == FloorTile;
    assert level.grid[1, 0] == WallTile;
    assert level.grid[1, 1] == GoalTile;
    PlaySmallMaze(game);
  }

  /** On that maze, from the start: down runs into the wall, right then down
      reaches the goal, and with a single level the goal enters that level again. */
  method PlaySmallMaze(game: Game)
    requires game.Valid() && |game.levels| == 1 && game.li == 0 && game.score == 0
    requires game.player.r == 0 && game.player.c == 0 && game.player.movedAt == 0
    requires game.levels[0].start == Some(Cell(0, 0))
    requires game.levels[0].grid.Length0 == 2 && game.levels[0].grid.Length1 == 2
    requires game.levels[0].grid[0, 0] == FloorTile && game.levels[0].grid[0, 1] == FloorTile
    requires game.levels[0].grid[1, 0] == WallTile && game.levels[0].grid[1, 1] == GoalTile
    modifies game, game.player, set l | l in game.levels
  {
    var level := game.levels[0];

    // Down from (0, 0) runs into the wall at (1, 0).
    assert KeyDelta(Key(0, 's')) == Some((1, 0));
    assert !Placed(level, 1, 0);
    game.KeyPressed(Key(0, 's'), 100);
    assert game.li == 0 && game.player.r == 0 && game.player.c == 0 && game.score == 0;

    // Right onto the floor at (0, 1).
    assert KeyDelta(Key(0, 'd')) == Some((0, 1));
    assert Placed(level, 0, 1) && !level.IsGoal(0, 1) && !level.IsCoin(0, 1);
    game.KeyPressed(Key(0, 'd'), 200);
    assert game.li == 0 && game.player.r == 0 && game.player.c == 1;

    // Down onto the goal at (1, 1).
    assert Placed(level, 1, 1) && level.IsGoal(1, 1);
    game.KeyPressed(Key(0, 's'), 300);
    assert game.li == 0 && level.levelStartTime == 300;
    assert game.player.r == 0 && game.player.c == 0 && !game.player.isGlowing;
  }
}
