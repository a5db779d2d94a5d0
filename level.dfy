/** One maze level: a rectangular grid of tile codes, the cells whose pickups
    have been collected, and the clock reading that opens the coin window. */
module MazeLevel {

  // Tile codes of the grid.
  const FloorTile := 0
  const WallTile := 1
  const StartTile := 2
  const GoalTile := 3
  const PowerUpTile := 4
  const CoinTile := 5

  /** How long (ms) coins can be collected after the level is (re)entered. */
  const CoinDuration := 15000

  datatype Option<T> = None | Some(value: T)

  /** The tile kinds of the legend; any other code is Unknown. */
  datatype TileKind = Floor | Wall | Start | Goal | PowerUp | Coin | Unknown

  function KindOf(code: int): TileKind {
    if code == FloorTile then Floor
    else if code == WallTile then Wall
    else if code == StartTile then Start
    else if code == GoalTile then Goal
    else if code == PowerUpTile then PowerUp
    else if code == CoinTile then Coin
    else Unknown
  }

  /** A grid position, row first. */
  datatype Cell = Cell(r: int, c: int)

  /** Row-major order: earlier row, or same row and earlier column. */
  predicate RowMajorBefore(a: Cell, b: Cell) {
    a.r < b.r || (a.r == b.r && a.c < b.c)
  }

  /** `s` is what a row-major scan of `g` for the start code finds:
      the first start cell, or None when there is none. */
  ghost predicate IsFirstStart(g: array2<int>, s: Option<Cell>)
    reads g
  {
    match s
    case None =>
      forall i, j | 0 <= i < g.Length0 && 0 <= j < g.Length1 :: g[i, j] != StartTile
    case Some(p) =>
      0 <= p.r < g.Length0 && 0 <= p.c < g.Length1 && g[p.r, p.c] == StartTile &&
      forall i, j | 0 <= i < g.Length0 && 0 <= j < g.Length1 && RowMajorBefore(Cell(i, j), p) ::
        g[i, j] != StartTile
  }

  /** Whole seconds left on the coin countdown after `elapsed` ms:
      the ceiling of max(0, CoinDuration - elapsed) / 1000. */
  function CoinSecondsRemaining(elapsed: int): (s: int)
    ensures s >= 0
    ensures elapsed >= 0 ==> s <= CoinDuration / 1000
    ensures s == 0 <==> elapsed >= CoinDuration
    ensures elapsed < CoinDuration ==> (s - 1) * 1000 < CoinDuration - elapsed <= s * 1000
  {
    var remaining := if CoinDuration - elapsed > 0 then CoinDuration - elapsed else 0;
    (remaining + 999) / 1000
  }

  class Level {
    /** The tile grid; the array is the one handed to the constructor. */
    const grid: array2<int>
    /** Pixels per tile. */
    const ts: int
    /** Where the start code was found, before it was turned into floor. */
    const start: Option<Cell>
    /** Collected cells, in collection order; never deduplicated. */
    var collected: seq<Cell>
    /** Clock reading at which the current coin window opened. */
    var levelStartTime: int

    /** Takes ownership of `g`: finds its first start cell and overwrites it with floor. */
    constructor (g: array2<int>, tileSize: int, now: int)
      modifies g
      ensures grid == g && ts == tileSize
      ensures collected == [] && levelStartTime == now
      ensures start.None? ==>
        forall i, j | 0 <= i < g.Length0 && 0 <= j < g.Length1 :: old(g[i, j]) != StartTile
      ensures start.Some? ==>
        var p := start.value;
        0 <= p.r < g.Length0 && 0 <= p.c < g.Length1 && old(g[p.r, p.c]) == StartTile &&
        forall i, j | 0 <= i < g.Length0 && 0 <= j < g.Length1 && RowMajorBefore(Cell(i, j), p) ::
          old(g[i, j]) != StartTile
      ensures forall i, j | 0 <= i < g.Length0 && 0 <= j < g.Length1 ::
        g[i, j] == (if start == Some(Cell(i, j)) then FloorTile else old(g[i, j]))
    {
      var s := FindStart(g);
      grid := g;
      ts := tileSize;
      start := s;
      collected := [];
      levelStartTime := now;
      if s.Some? {
        g[s.value.r, s.value.c] := FloorTile;
      }
    }

    /** Scans `g` row by row, column by column, and stops at the first start code. */
    static method FindStart(g: array2<int>) returns (s: Option<Cell>)
      ensures IsFirstStart(g, s)
    {
      var r := 0;
      while r < g.Length0
        invariant 0 <= r <= g.Length0
        invariant forall i, j | 0 <= i < r && 0 <= j < g.Length1 :: g[i, j] != StartTile
      {
        var c := 0;
        while c < g.Length1
          invariant 0 <= c <= g.Length1
          invariant forall j | 0 <= j < c :: g[r, j] != StartTile
        {
          if g[r, c] == StartTile {
            return Some(Cell(r, c));
          }
          c := c + 1;
        }
        r := r + 1;
      }
      return None;
    }

    function Rows(): nat {
      grid.Length0
    }

    /** The width of row 0, so it needs a row to exist; every row of the grid has it. */
    function Cols(): nat
      requires Rows() > 0
    {
      grid.Length1
    }

    function PixelWidth(): (w: int)
      requires Rows() > 0
      ensures ts >= 0 ==> forall c | 0 <= c < Cols() :: c * ts + ts <= w
      ensures ts >= 0 ==> w >= 0
    {
      TilesFit(Cols(), ts);
      Cols() * ts
    }

    function PixelHeight(): (h: int)
      ensures ts >= 0 ==> forall r | 0 <= r < Rows() :: r * ts + ts <= h
      ensures ts >= 0 ==> h >= 0
    {
      TilesFit(Rows(), ts);
      Rows() * ts
    }

    /** InBounds admits exactly the cells of the grid; row 0's width bounds every row. */
    predicate InBounds(r: int, c: int)
      ensures InBounds(r, c) <==> 0 <= r < grid.Length0 && 0 <= c < grid.Length1
    {
      r >= 0 && c >= 0 && r < Rows() && c < Cols()
    }

    /** The code stored at (r, c); callers check bounds first, there is no clamping. */
    function TileAt(r: int, c: int): (t: int)
      reads grid
      requires InBounds(r, c)
      ensures 0 <= r < grid.Length0 && 0 <= c < grid.Length1 && t == grid[r, c]
    {
      grid[r, c]
    }

    predicate IsWall(r: int, c: int)
      reads grid
      requires InBounds(r, c)
      ensures IsWall(r, c) <==> KindOf(TileAt(r, c)) == Wall
    {
      TileAt(r, c) == WallTile
    }

    predicate IsGoal(r: int, c: int)
      reads grid
      requires InBounds(r, c)
      ensures IsGoal(r, c) <==> KindOf(TileAt(r, c)) == Goal
    {
      TileAt(r, c) == GoalTile
    }

    predicate IsPowerUp(r: int, c: int)
      reads grid
      requires InBounds(r, c)
      ensures IsPowerUp(r, c) <==> KindOf(TileAt(r, c)) == PowerUp
    {
      TileAt(r, c) == PowerUpTile
    }

    predicate IsCoin(r: int, c: int)
      reads grid
      requires InBounds(r, c)
      ensures IsCoin(r, c) <==> KindOf(TileAt(r, c)) == Coin
    {
      TileAt(r, c) == CoinTile
    }

    /** Whether some collected entry has row r and column c. */
    predicate IsCollected(r: int, c: int)
      reads this
      ensures IsCollected(r, c) <==>
        exists i | 0 <= i < |collected| :: collected[i].r == r && collected[i].c == c
    {
      Cell(r, c) in collected
    }

    method CollectItem(r: int, c: int)
      modifies this`collected
      ensures collected == old(collected) + [Cell(r, c)]
      ensures IsCollected(r, c)
      ensures forall r', c' | (r', c') != (r, c) :: IsCollected(r', c') == old(IsCollected(r', c'))
    {
      collected := collected + [Cell(r, c)];
    }

    /** Coins can be taken exactly while the countdown still shows a second. */
    predicate CoinsStillAvailable(now: int)
      reads this
      ensures CoinsStillAvailable(now) <==> CoinSecondsRemaining(now - levelStartTime) > 0
    {
      now - levelStartTime < CoinDuration
    }

    /** Opens a fresh coin window at `now` and forgets every collection. */
    method ResetTimer(now: int)
      modifies this`levelStartTime, this`collected
      ensures levelStartTime == now && collected == []
      ensures forall r, c :: !IsCollected(r, c)
      ensures forall t | now <= t < now + CoinDuration :: CoinsStillAvailable(t)
      ensures forall t | t >= now + CoinDuration :: !CoinsStillAvailable(t)
    {
      levelStartTime := now;
      collected := [];
    }

    /** The seconds the coin countdown shows at `now`. */
    function CoinTimerSeconds(now: int): (s: int)
      reads this
      ensures s >= 0
      ensures now >= levelStartTime ==> s <= CoinDuration / 1000
      ensures s == 0 <==> !CoinsStillAvailable(now)
    {
      CoinSecondsRemaining(now - levelStartTime)
    }
  }

  /** Every tile of a run of `n` tiles of size `ts` ends within `n * ts`. */
  lemma TilesFit(n: nat, ts: int)
    ensures ts >= 0 ==> forall k | 0 <= k < n :: k * ts + ts <= n * ts
  {
    if ts >= 0 {
      forall k | 0 <= k < n
        ensures k * ts + ts <= n * ts
      {
        assert k * ts + ts == (k + 1) * ts;
        assert (k + 1) * ts <= n * ts by {
          assert n * ts - (k + 1) * ts == (n - (k + 1)) * ts;
        }
      }
    }
  }

  /** The four tile kinds tested by the queries have distinct codes, so a cell is
      at most one of wall, goal, power-up and coin. */
  lemma TileKindsExclusive(l: Level, r: int, c: int)
    requires l.InBounds(r, c)
    ensures l.IsWall(r, c) ==> !l.IsGoal(r, c) && !l.IsPowerUp(r, c) && !l.IsCoin(r, c)
    ensures l.IsGoal(r, c) ==> !l.IsPowerUp(r, c) && !l.IsCoin(r, c)
    ensures l.IsPowerUp(r, c) ==> !l.IsCoin(r, c)
  {
  }

  /** The coin window is open for elapsed times below 15000 ms and shut from then on. */
  lemma CoinWindowEdges(l: Level, now: int)
    ensures l.CoinsStillAvailable(l.levelStartTime + CoinDuration - 1)
    ensures !l.CoinsStillAvailable(l.levelStartTime + CoinDuration)
    ensures forall t | t <= now :: l.CoinsStillAvailable(now) ==> l.CoinsStillAvailable(t)
  {
  }

  /** Collecting the same cell again changes no membership answer. */
  lemma CollectTwiceSameMembership(s: seq<Cell>, p: Cell, q: Cell)
    ensures q in s + [p] + [p] <==> q in s + [p]
    ensures q in s + [p] <==> q == p || q in s
  {
  }
}
