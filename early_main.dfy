/** The first prototype in src/main.rs, which runs on its own: the map is a
    plain vector of 80 x 50 tiles with a wall border and 400 random wall
    splats, arrow keys move the player unless the destination tile is a
    wall, and the LeftWalker system walks every LeftMover one column to the
    left, wrapping to column 79. Its `get_index_xy` computes the same
    `(y as usize * 80) + x as usize` as the map's, so `GetIndexXY` is
    reused. */
module EarlyMain {
  import opened Constants
  import opened MapGrid
  import opened Components
  import PlayerActions

  const MAP_FLOOR_DIMENSION: int := 80 * 50
  const COORDINATE_49: int := 49

  /** The tile every splat spares: (40, 25). */
  const CENTRE: nat := 40 + 25 * 80

  // ---------------------------------------------------------------------
  // new_map
  // ---------------------------------------------------------------------

  /** A cell of row 0, row 49, column 0 or column 79. */
  predicate BorderCell(i: int) {
    i % 80 == 0 || i % 80 == COORDINATE_79 || i / 80 == 0 || i / 80 == COORDINATE_49
  }

  /** A splat roll within the dice ranges `1..=79` and `1..=49`. */
  predicate ValidSplat(r: (int, int)) {
    1 <= r.0 <= COORDINATE_79 && 1 <= r.1 <= COORDINATE_49
  }

  /** The cells the splat rolls name. */
  function SplatCells(rolls: seq<(int, int)>): (s: set<nat>)
    ensures forall i :: i in s <==> exists k :: 0 <= k < |rolls| && i == GetIndexXY(rolls[k].0, rolls[k].1)
  {
    set k | 0 <= k < |rolls| :: GetIndexXY(rolls[k].0, rolls[k].1)
  }

  lemma SplatCellsSnoc(rolls: seq<(int, int)>, k: nat)
    requires k < |rolls|
    ensures SplatCells(rolls[..k + 1]) == SplatCells(rolls[..k]) + {GetIndexXY(rolls[k].0, rolls[k].1)}
  {
    var a, b := SplatCells(rolls[..k + 1]), SplatCells(rolls[..k]) + {GetIndexXY(rolls[k].0, rolls[k].1)};
    forall i | i in a
      ensures i in b
    {
      var j :| 0 <= j < k + 1 && i == GetIndexXY(rolls[..k + 1][j].0, rolls[..k + 1][j].1);
      if j < k {
        assert rolls[..k][j] == rolls[j];
      }
    }
    forall i | i in b
      ensures i in a
    {
      if i != GetIndexXY(rolls[k].0, rolls[k].1) {
        var j :| 0 <= j < k && i == GetIndexXY(rolls[..k][j].0, rolls[..k][j].1);
        assert rolls[..k + 1][j] == rolls[j];
      } else {
        assert rolls[..k + 1][k] == rolls[k];
      }
    }
  }

  /** `new_map`: an all-floor vector gets its border walled, then each of
      the 400 splats walls its cell unless it is the centre. Every splat
      lies in the grid, so no index goes out of range. */
  method NewMap(rolls: seq<(int, int)>) returns (tiles: seq<TileType>)
    requires |rolls| == 400 && forall k :: 0 <= k < |rolls| ==> ValidSplat(rolls[k])
    ensures |tiles| == MAP_FLOOR_DIMENSION
    ensures forall i :: 0 <= i < |tiles| ==>
      (tiles[i] == Wall <==> BorderCell(i) || (i in SplatCells(rolls) && i != CENTRE))
    ensures forall x, y ::
      (0 <= x < WIDTH && 0 <= y < HEIGHT && (x == 0 || x == COORDINATE_79 || y == 0 || y == COORDINATE_49)
       ==> tiles[GetIndexXY(x, y)] == Wall)
    ensures tiles[GetIndexXY(40, 25)] == Floor
  {
    tiles := seq(MAP_FLOOR_DIMENSION, _ => Floor);
    for x := 0 to 80
      invariant |tiles| == MAP_FLOOR_DIMENSION
      invariant forall i :: 0 <= i < |tiles| ==> (tiles[i] == Wall <==> (i / 80 == 0 || i / 80 == COORDINATE_49) && i % 80 < x)
    {
      tiles := tiles[GetIndexXY(x, 0) := Wall];
      tiles := tiles[GetIndexXY(x, COORDINATE_49) := Wall];
    }
    for y := 0 to 50
      invariant |tiles| == MAP_FLOOR_DIMENSION
      invariant forall i :: 0 <= i < |tiles| ==>
        (tiles[i] == Wall <==> i / 80 == 0 || i / 80 == COORDINATE_49 || ((i % 80 == 0 || i % 80 == COORDINATE_79) && i / 80 < y))
    {
      tiles := tiles[GetIndexXY(0, y) := Wall];
      tiles := tiles[GetIndexXY(COORDINATE_79, y) := Wall];
    }
    for k := 0 to 400
      invariant |tiles| == MAP_FLOOR_DIMENSION
      invariant forall i :: 0 <= i < |tiles| ==>
        (tiles[i] == Wall <==> BorderCell(i) || (i in SplatCells(rolls[..k]) && i != CENTRE))
    {
      assert ValidSplat(rolls[k]);
      SplatCellsSnoc(rolls, k);
      var x := rolls[k].0;
      var y := rolls[k].1;
      var idx := GetIndexXY(x, y);
      if idx != GetIndexXY(40, 25) {
        tiles := tiles[idx := Wall];
      }
    }
    assert rolls[..400] == rolls;
    forall x, y | 0 <= x < WIDTH && 0 <= y < HEIGHT && (x == 0 || x == COORDINATE_79 || y == 0 || y == COORDINATE_49)
      ensures tiles[GetIndexXY(x, y)] == Wall
    {
      IndexOfCell(x, y);
    }
  }

  // ---------------------------------------------------------------------
  // The prototype's world
  // ---------------------------------------------------------------------

  /** The state the prototype's systems use: the tile vector resource and
      the Position, Player and LeftMover storages. */
  class EarlyWorld {
    var tiles: seq<TileType>
    var positions: map<Entity, Position>
    var players: set<Entity>
    var leftMovers: set<Entity>
    var next: nat

    ghost predicate Valid()
      reads this
    {
      |tiles| == MAP_FLOOR_DIMENSION &&
      (forall e :: e in positions ==> e < next)
    }

    constructor (tiles: seq<TileType>)
      requires |tiles| == MAP_FLOOR_DIMENSION
      ensures Valid() && this.tiles == tiles && positions == map[] && players == {} && leftMovers == {} && next == 0
    {
      this.tiles := tiles;
      positions := map[];
      players := {};
      leftMovers := {};
      next := 0;
    }
  }

  // ---------------------------------------------------------------------
  // try_move_player and player_input
  // ---------------------------------------------------------------------

  function Clamp(lo: int, hi: int, v: int): int {
    Min(hi, Max(lo, v))
  }

  /** The index `try_move_player` looks up for a player at `pos`. */
  function Destination(pos: Position, dx: int, dy: int): nat {
    GetIndexXY(pos.x + dx, pos.y + dy)
  }

  /** Where one player ends up: unless the destination tile is a wall it
      moves, with the coordinates clamped into the screen. */
  function StepTo(tiles: seq<TileType>, pos: Position, dx: int, dy: int): (r: Position)
    requires Destination(pos, dx, dy) < |tiles|
    ensures tiles[Destination(pos, dx, dy)] == Wall ==> r == pos
    ensures tiles[Destination(pos, dx, dy)] != Wall ==>
      0 <= r.x <= COORDINATE_79 && 0 <= r.y <= COORDINATE_49 &&
      (0 <= pos.x + dx <= COORDINATE_79 ==> r.x == pos.x + dx) &&
      (0 <= pos.y + dy <= COORDINATE_49 ==> r.y == pos.y + dy)
  {
    if tiles[Destination(pos, dx, dy)] != Wall then
      Position(Clamp(0, COORDINATE_79, pos.x + dx), Clamp(0, COORDINATE_49, pos.y + dy))
    else pos
  }

  /** The lookups of every player stay inside the vector: otherwise the
      prototype panics. */
  predicate InRange(tiles: seq<TileType>, positions: map<Entity, Position>, players: set<Entity>, dx: int, dy: int) {
    forall e :: e in players && e in positions ==> Destination(positions[e], dx, dy) < |tiles|
  }

  /** On a map whose border is walled, a player on an inner cell that moves
      one step lands on an inner cell exactly `(dx, dy)` away, or stays. */
  lemma InnerMove(tiles: seq<TileType>, pos: Position, dx: int, dy: int)
    requires |tiles| == MAP_FLOOR_DIMENSION && forall i :: 0 <= i < |tiles| && BorderCell(i) ==> tiles[i] == Wall
    requires 0 < pos.x < COORDINATE_79 && 0 < pos.y < COORDINATE_49 && -1 <= dx <= 1 && -1 <= dy <= 1
    ensures Destination(pos, dx, dy) < |tiles|
    ensures var r := StepTo(tiles, pos, dx, dy);
      (r == pos || r == Position(pos.x + dx, pos.y + dy)) &&
      0 < r.x < COORDINATE_79 && 0 < r.y < COORDINATE_49
  {
    IndexOfCell(pos.x + dx, pos.y + dy);
  }

  /** `try_move_player`: every player takes its step; nothing else moves. */
  method TryMovePlayer(dx: int, dy: int, w: EarlyWorld)
    requires w.Valid() && InRange(w.tiles, w.positions, w.players, dx, dy)
    modifies w`positions
    ensures w.Valid() && w.positions.Keys == old(w.positions.Keys)
    ensures forall e :: e in w.positions ==>
      w.positions[e] == if e in w.players then StepTo(w.tiles, old(w.positions)[e], dx, dy) else old(w.positions)[e]
  {
    for entity := 0 to w.next
      invariant w.Valid() && w.positions.Keys == old(w.positions.Keys)
      invariant forall e :: e in w.positions ==>
        w.positions[e] == if e in w.players && e < entity then StepTo(w.tiles, old(w.positions)[e], dx, dy)
                          else old(w.positions)[e]
    {
      if entity in w.players && entity in w.positions {
        var pos := w.positions[entity];
        var destinationIndex := GetIndexXY(pos.x + dx, pos.y + dy);
        if w.tiles[destinationIndex] != Wall {
          w.positions := w.positions[entity := Position(Min(COORDINATE_79, Max(0, pos.x + dx)),
                                                        Min(COORDINATE_49, Max(0, pos.y + dy)))];
        }
      }
    }
  }

  /** The prototype's keys: the four arrows. */
  function ArrowDelta(key: Option<Key>): (d: Option<(int, int)>)
    ensures d.Some? <==> key.Some? && key.value in {Left, Right, Up, Down}
  {
    match key
    case Some(Left) => Some((-1, 0))
    case Some(Right) => Some((1, 0))
    case Some(Up) => Some((0, -1))
    case Some(Down) => Some((0, 1))
    case _ => None
  }

  /** The arrows move as they do in the full game's `player_input`. */
  lemma ArrowsAgree(key: Option<Key>)
    requires ArrowDelta(key).Some?
    ensures ArrowDelta(key) == PlayerActions.Delta(key.value)
  {
    match key.value
    case Left =>
    case Right =>
    case Up =>
    case Down =>
  }

  /** `player_input`: an arrow moves the players, anything else does
      nothing. */
  method PlayerInput(key: Option<Key>, w: EarlyWorld)
    requires w.Valid()
    requires ArrowDelta(key).Some? ==> InRange(w.tiles, w.positions, w.players, ArrowDelta(key).value.0, ArrowDelta(key).value.1)
    modifies w`positions
    ensures w.Valid() && w.positions.Keys == old(w.positions.Keys)
    ensures ArrowDelta(key).None? ==> w.positions == old(w.positions)
    ensures ArrowDelta(key).Some? ==> forall e :: e in w.positions ==>
      w.positions[e] == if e in w.players
        then StepTo(w.tiles, old(w.positions)[e], ArrowDelta(key).value.0, ArrowDelta(key).value.1)
        else old(w.positions)[e]
  {
    var delta := ArrowDelta(key);
    if delta.Some? {
      TryMovePlayer(delta.value.0, delta.value.1, w);
    }
  }

  // ---------------------------------------------------------------------
  // LeftWalker
  // ---------------------------------------------------------------------

  /** One LeftWalker step of a column: one to the left, wrapping from -1 to
      79. On screen columns it is a step left modulo 80. */
  function WalkLeft(x: int): (r: int)
    ensures 0 <= x <= COORDINATE_79 ==> 0 <= r <= COORDINATE_79 && r == (x - 1) % 80
    ensures x > 0 ==> r == x - 1
  {
    if x - 1 < 0 then COORDINATE_79 else x - 1
  }

  /** `n` LeftWalker steps. */
  function WalkLeftTimes(x: int, n: nat): int
    decreases n
  {
    if n == 0 then x else WalkLeft(WalkLeftTimes(x, n - 1))
  }

  /** From a screen column, `n` steps go `n` columns left modulo 80; in
      particular 80 steps come back to the start. */
  lemma {:induction false} WalkLeftPeriod(x: int, n: nat)
    requires 0 <= x <= COORDINATE_79
    ensures WalkLeftTimes(x, n) == (x - n) % 80
    decreases n
  {
    if n > 0 {
      WalkLeftPeriod(x, n - 1);
      var c := WalkLeftTimes(x, n - 1);
      ModStep(x - n + 1);
      assert WalkLeftTimes(x, n) == WalkLeft(c) == (c - 1) % 80;
    }
  }

  lemma ModStep(a: int)
    ensures (a % 80 - 1) % 80 == (a - 1) % 80
  {
  }

  /** `LeftWalker::run`: every LeftMover with a position walks one column
      left; rows and every other entity stay. */
  method LeftWalkerRun(w: EarlyWorld)
    requires w.Valid()
    modifies w`positions
    ensures w.Valid() && w.positions.Keys == old(w.positions.Keys)
    ensures forall e :: e in w.positions ==>
      w.positions[e] == if e in w.leftMovers
        then Position(WalkLeft(old(w.positions)[e].x), old(w.positions)[e].y)
        else old(w.positions)[e]
  {
    for entity := 0 to w.next
      invariant w.Valid() && w.positions.Keys == old(w.positions.Keys)
      invariant forall e :: e in w.positions ==>
        w.positions[e] == if e in w.leftMovers && e < entity
          then Position(WalkLeft(old(w.positions)[e].x), old(w.positions)[e].y)
          else old(w.positions)[e]
    {
      if entity in w.leftMovers && entity in w.positions {
        var pos := w.positions[entity];
        var x := pos.x - 1;
        if x < 0 {
          x := COORDINATE_79;
        }
        w.positions := w.positions[entity := Position(x, pos.y)];
      }
    }
  }
}
