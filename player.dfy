/** The player token: its cell, the time of its last accepted move, and the
    glow it gets from a power-up. */
module MazePlayer {
  import opened MazeLevel

  /** Minimum time (ms) between two accepted moves. */
  const MoveDelay := 90
  /** How long (ms) the glow lasts once a power-up is collected. */
  const GlowDuration := 5000

  /** What a move picked up; NoItem stands for the source's null. */
  datatype Item = NoItem | PowerUpItem | CoinItem

  datatype MoveResult = MoveResult(moved: bool, item: Item)

  const Rejected := MoveResult(false, NoItem)

  /** The fields of a Player, as a value. */
  datatype Avatar = Avatar(r: int, c: int, movedAt: int, glowing: bool, glowStart: int)

  /** One key press handed to the player: a step and the clock reading. */
  datatype Press = Press(dr: int, dc: int, now: int)

  /** A cell the player may stand on after a move: inside the level and not a wall. */
  predicate Placed(level: Level, r: int, c: int)
    reads level.grid
  {
    level.InBounds(r, c) && !level.IsWall(r, c)
  }

  predicate NoDuplicates(s: seq<Cell>) {
    forall i, j | 0 <= i < j < |s| :: s[i] != s[j]
  }

  /** What one tryMove does: the result, the player afterwards, and the level's
      collected cells afterwards (the level's grid and clock are only read). */
  ghost function Step(a: Avatar, level: Level, collected: seq<Cell>, dr: int, dc: int, now: int)
    : (out: (MoveResult, Avatar, seq<Cell>))
    reads level, level.grid
    // the throttle is checked first
    ensures now - a.movedAt < MoveDelay ==> out == (Rejected, a, collected)
    // then the target must be inside the level and not a wall
    ensures now - a.movedAt >= MoveDelay && !Placed(level, a.r + dr, a.c + dc) ==>
      out == (Rejected, a, collected)
    ensures out.0.moved <==> now - a.movedAt >= MoveDelay && Placed(level, a.r + dr, a.c + dc)
    ensures out.0.moved ==>
      out.1.r == a.r + dr && out.1.c == a.c + dc && out.1.movedAt == now
    // pickups, on an accepted move only
    ensures out.0.item == PowerUpItem <==>
      out.0.moved && level.IsPowerUp(a.r + dr, a.c + dc) && Cell(a.r + dr, a.c + dc) !in collected
    ensures out.0.item == CoinItem <==>
      out.0.moved && level.IsCoin(a.r + dr, a.c + dc) && Cell(a.r + dr, a.c + dc) !in collected &&
      level.CoinsStillAvailable(now)
    ensures out.2 == if out.0.item == NoItem then collected else collected + [Cell(a.r + dr, a.c + dc)]
    ensures out.0.item == PowerUpItem ==> out.1.glowing && out.1.glowStart == now
    ensures out.0.item != PowerUpItem ==> out.1.glowing == a.glowing && out.1.glowStart == a.glowStart
  {
    if now - a.movedAt < MoveDelay then (Rejected, a, collected)
    else
      var nr, nc := a.r + dr, a.c + dc;
      if !level.InBounds(nr, nc) then (Rejected, a, collected)
      else if level.IsWall(nr, nc) then (Rejected, a, collected)
      else
        var p := Cell(nr, nc);
        var moved := a.(r := nr, c := nc, movedAt := now);
        var powered := level.IsPowerUp(nr, nc) && p !in collected;
        var a1 := if powered then moved.(glowing := true, glowStart := now) else moved;
        var col1 := if powered then collected + [p] else collected;
        var coined := level.IsCoin(nr, nc) && p !in col1 && level.CoinsStillAvailable(now);
        var col2 := if coined then col1 + [p] else col1;
        var item := if coined then CoinItem else if powered then PowerUpItem else NoItem;
        (MoveResult(true, item), a1, col2)
  }

  /** Whether the glow survives updateGlow at `now` on `level`. */
  ghost function GlowAfterUpdate(a: Avatar, level: Level, now: int): (g: bool)
    requires a.glowing ==> level.InBounds(a.r, a.c)
    reads level.grid
    ensures g ==> a.glowing
    ensures a.glowing && now - a.glowStart > GlowDuration ==> !g
    ensures a.glowing && level.IsGoal(a.r, a.c) ==> !g
    ensures a.glowing && now - a.glowStart <= GlowDuration && !level.IsGoal(a.r, a.c) ==> g
  {
    if !a.glowing then false
    else
      var notExpired := !(now - a.glowStart > GlowDuration);
      if level.IsGoal(a.r, a.c) then false else notExpired
  }

  /** The presses of `ps` handed to tryMove one after another on one level. */
  ghost function Run(a: Avatar, level: Level, collected: seq<Cell>, ps: seq<Press>)
    : (out: (Avatar, seq<Cell>, seq<MoveResult>))
    reads level, level.grid
    ensures |out.2| == |ps|
    decreases |ps|
  {
    if ps == [] then (a, collected, [])
    else
      var (res, a1, col1) := Step(a, level, collected, ps[0].dr, ps[0].dc, ps[0].now);
      var (a2, col2, rs) := Run(a1, level, col1, ps[1..]);
      (a2, col2, [res] + rs)
  }

  /** The number of results that report a pickup. */
  function Pickups(rs: seq<MoveResult>): nat {
    if rs == [] then 0
    else (if rs[0].item == NoItem then 0 else 1) + Pickups(rs[1..])
  }

  class Player {
    const ts: int
    var r: int
    var c: int
    var movedAt: int
    var isGlowing: bool
    var glowStartTime: int

    ghost function State(): Avatar
      reads this
    {
      Avatar(r, c, movedAt, isGlowing, glowStartTime)
    }

    constructor (tileSize: int)
      ensures ts == tileSize
      ensures State() == Avatar(0, 0, 0, false, 0)
    {
      ts := tileSize;
      r, c := 0, 0;
      movedAt := 0;
      isGlowing := false;
      glowStartTime := 0;
    }

    /** Teleports without any check. */
    method SetCell(r: int, c: int)
      modifies this`r, this`c
      ensures this.r == r && this.c == c
    {
      this.r := r;
      this.c := c;
    }

    method ActivateGlow(now: int)
      modifies this`isGlowing, this`glowStartTime
      ensures isGlowing && glowStartTime == now
    {
      isGlowing := true;
      glowStartTime := now;
    }

    /** Ends the glow once it has lasted longer than GlowDuration or the player
        stands on the goal of `level`; the goal is looked at only while glowing. */
    method UpdateGlow(level: Level, now: int)
      requires isGlowing ==> level.InBounds(r, c)
      modifies this`isGlowing
      ensures isGlowing == old(GlowAfterUpdate(State(), level, now))
    {
      if isGlowing {
        var elapsed := now - glowStartTime;
        if elapsed > GlowDuration {
          isGlowing := false;
        }
        if level.IsGoal(r, c) {
          isGlowing := false;
        }
      }
    }

    /** Moves by (dr, dc) unless throttled or blocked, then resolves the pickup
        of the cell it lands on. */
    method TryMove(level: Level, dr: int, dc: int, now: int) returns (res: MoveResult)
      modifies this, level`collected
      ensures (res, State(), level.collected) == old(Step(State(), level, level.collected, dr, dc, now))
    {
      if now - movedAt < MoveDelay {
        return Rejected;
      }
      var nr := r + dr;
      var nc := c + dc;
      if !level.InBounds(nr, nc) {
        return Rejected;
      }
      if level.IsWall(nr, nc) {
        return Rejected;
      }
      r := nr;
      c := nc;
      movedAt := now;
      var item := NoItem;
      if level.IsPowerUp(nr, nc) && !level.IsCollected(nr, nc) {
        item := PowerUpItem;
        level.CollectItem(nr, nc);
        ActivateGlow(now);
      }
      if level.IsCoin(nr, nc) && !level.IsCollected(nr, nc) && level.CoinsStillAvailable(now) {
        item := CoinItem;
        level.CollectItem(nr, nc);
      }
      return MoveResult(true, item);
    }
  }

  /** Starting on a placed cell, any sequence of moves ends on a placed cell. */
  lemma {:induction false} RunKeepsPlacement(a: Avatar, level: Level, collected: seq<Cell>, ps: seq<Press>)
    requires Placed(level, a.r, a.c)
    ensures var a' := Run(a, level, collected, ps).0; Placed(level, a'.r, a'.c)
    decreases |ps|
  {
    if ps != [] {
      var (res, a1, col1) := Step(a, level, collected, ps[0].dr, ps[0].dc, ps[0].now);
      RunKeepsPlacement(a1, level, col1, ps[1..]);
    }
  }

  /** Every accepted move of a run comes at least MoveDelay after the starting movedAt. */
  lemma {:induction false} RunAcceptedAfterStart(a: Avatar, level: Level, collected: seq<Cell>, ps: seq<Press>)
    ensures var rs := Run(a, level, collected, ps).2;
      forall j | 0 <= j < |ps| && rs[j].moved :: ps[j].now - a.movedAt >= MoveDelay
    decreases |ps|
  {
    if ps != [] {
      var (res, a1, col1) := Step(a, level, collected, ps[0].dr, ps[0].dc, ps[0].now);
      RunAcceptedAfterStart(a1, level, col1, ps[1..]);
      assert a1.movedAt >= a.movedAt;
      var rs := Run(a, level, collected, ps).2;
      assert rs == [res] + Run(a1, level, col1, ps[1..]).2;
      forall j | 1 <= j < |ps| && rs[j].moved
        ensures ps[j].now - a.movedAt >= MoveDelay
      {
        assert rs[j] == Run(a1, level, col1, ps[1..]).2[j - 1];
        assert ps[j] == ps[1..][j - 1];
      }
    }
  }

  /** Any two accepted moves of a run are at least MoveDelay apart. */
  lemma {:induction false} RunMovesSpaced(a: Avatar, level: Level, collected: seq<Cell>, ps: seq<Press>)
    ensures var rs := Run(a, level, collected, ps).2;
      forall i, j | 0 <= i < j < |ps| && rs[i].moved && rs[j].moved :: ps[j].now - ps[i].now >= MoveDelay
    decreases |ps|
  {
    if ps != [] {
      var (res, a1, col1) := Step(a, level, collected, ps[0].dr, ps[0].dc, ps[0].now);
      RunMovesSpaced(a1, level, col1, ps[1..]);
      RunAcceptedAfterStart(a1, level, col1, ps[1..]);
      var rs := Run(a, level, collected, ps).2;
      var rest := Run(a1, level, col1, ps[1..]).2;
      assert rs == [res] + rest;
      forall i, j | 0 <= i < j < |ps| && rs[i].moved && rs[j].moved
        ensures ps[j].now - ps[i].now >= MoveDelay
      {
        assert rs[j] == rest[j - 1] && ps[j] == ps[1..][j - 1];
        if i > 0 {
          assert rs[i] == rest[i - 1] && ps[i] == ps[1..][i - 1];
        }
      }
    }
  }

  /** Collected cells only grow, by exactly the pickups reported, and a run that
      starts without duplicates never collects a cell twice. */
  lemma {:induction false} RunCollectsOnce(a: Avatar, level: Level, collected: seq<Cell>, ps: seq<Press>)
    ensures var (_, col, rs) := Run(a, level, collected, ps);
      collected <= col && |col| == |collected| + Pickups(rs)
    ensures NoDuplicates(collected) ==> NoDuplicates(Run(a, level, collected, ps).1)
    decreases |ps|
  {
    if ps != [] {
      var (res, a1, col1) := Step(a, level, collected, ps[0].dr, ps[0].dc, ps[0].now);
      RunCollectsOnce(a1, level, col1, ps[1..]);
      var rs := Run(a, level, collected, ps).2;
      assert rs == [res] + Run(a1, level, col1, ps[1..]).2;
      assert rs[1..] == Run(a1, level, col1, ps[1..]).2;
    }
  }
}
