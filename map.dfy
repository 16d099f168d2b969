/** The dungeon map of src/map.rs: a WIDTH x HEIGHT grid of tiles stored row
    by row, room-and-corridor carving, the per-tile `blocked` flags and
    occupant lists, and the queries the field-of-view and path-finding
    algorithms use. */
module MapGrid {
  import opened Constants

  /** Entities are identified by their index in the entity allocator. */
  type Entity = nat

  datatype TileType = Wall | Floor

  /** An axis-aligned rectangle with corners (x1, y1) and (x2, y2). Its
      constructor, `intersect` and `center` live outside this model, so the
      operations that use them receive them as parameters. */
  datatype Rect = Rect(x1: int, y1: int, x2: int, y2: int)

  /** The two exit costs of `get_available_exits`: 1.0 for a cardinal step,
      1.45 for a diagonal one. */
  datatype Cost = Cardinal | Diagonal

  datatype Exit = Exit(index: int, cost: Cost)

  /** The two directions a tunnel is dug in. */
  datatype Axis = Horizontal | Vertical

  // ---------------------------------------------------------------------
  // Index arithmetic
  // ---------------------------------------------------------------------

  /** `v as usize` for an i32 `v` on a 64-bit target (sign extension). */
  function AsUsize(v: int): nat { v % USIZE_MODULUS }

  /** `get_index_xy`: `y as usize * width + x as usize` in wrapping `usize`
      arithmetic, with the map's width of 80. For a cell of the grid it is
      the row-major index of that cell. */
  function GetIndexXY(x: int, y: int): (i: nat)
    ensures i < USIZE_MODULUS
    ensures 0 <= x < WIDTH && 0 <= y < HEIGHT ==> i == y * WIDTH + x < WIDTH * HEIGHT
  {
    (AsUsize(y) * WIDTH + AsUsize(x)) % USIZE_MODULUS
  }

  /** The index of a cell in column `x` of any row that fits a `usize` is
      `y * WIDTH + x`, and dividing by the width recovers the coordinates. */
  lemma IndexDecodes(x: int, y: int)
    requires 0 <= x < WIDTH && 0 <= y && y * WIDTH + x < USIZE_MODULUS
    ensures GetIndexXY(x, y) == y * WIDTH + x
    ensures GetIndexXY(x, y) % WIDTH == x && GetIndexXY(x, y) / WIDTH == y
  {
    assert AsUsize(y) == y && AsUsize(x) == x;
  }

  /** For a cell of the grid the index is below WIDTH * HEIGHT and decodes
      back to the cell. */
  lemma IndexOfCell(x: int, y: int)
    requires 0 <= x < WIDTH && 0 <= y < HEIGHT
    ensures GetIndexXY(x, y) < WIDTH * HEIGHT
    ensures GetIndexXY(x, y) % WIDTH == x && GetIndexXY(x, y) / WIDTH == y
  {
    IndexDecodes(x, y);
  }

  // ---------------------------------------------------------------------
  // Specification of the carving operations
  // ---------------------------------------------------------------------

  /** The room interior is the cells with x1 < x <= x2 and y1 < y <= y2. */
  predicate InRoom(r: Rect, i: int) {
    r.x1 < i % WIDTH <= r.x2 && r.y1 < i / WIDTH <= r.y2
  }

  /** A room whose interior lies inside the grid, so that carving it indexes
      only existing tiles. */
  predicate InMap(r: Rect) {
    -1 <= r.x1 && r.x2 < WIDTH && -1 <= r.y1 && r.y2 < HEIGHT
  }

  /** The tiles after `apply_room_to_map`. */
  function CarveRoom(tiles: seq<TileType>, r: Rect): (t: seq<TileType>)
    ensures |t| == |tiles|
  {
    seq(|tiles|, i requires 0 <= i < |tiles| => if InRoom(r, i) then Floor else tiles[i])
  }

  /** Every cell of a room's interior is an index of the grid that is
      recognised as inside the room, so it is Floor after carving. */
  lemma RoomInteriorCarved(tiles: seq<TileType>, r: Rect, x: int, y: int)
    requires |tiles| == WIDTH * HEIGHT && InMap(r)
    requires r.x1 < x <= r.x2 && r.y1 < y <= r.y2
    ensures GetIndexXY(x, y) < |tiles| && InRoom(r, GetIndexXY(x, y))
    ensures CarveRoom(tiles, r)[GetIndexXY(x, y)] == Floor
  {
    IndexOfCell(x, y);
  }

  /** The index a tunnel along `axis` visits at coordinate `k`, with the
      other coordinate `fixed`. */
  function TunnelCell(axis: Axis, k: int, fixed: int): nat {
    match axis
    case Horizontal => GetIndexXY(k, fixed)
    case Vertical => GetIndexXY(fixed, k)
  }

  /** One step of a tunnel: the tile is made Floor only when
      `index > 0 && index < WIDTH * HEIGHT`. */
  function CarveTunnelCell(tiles: seq<TileType>, index: nat): (t: seq<TileType>)
    requires |tiles| == WIDTH * HEIGHT
    ensures |t| == |tiles|
  {
    if 0 < index < WIDTH * HEIGHT then tiles[index := Floor] else tiles
  }

  /** The tunnel cells from coordinate `k` up to `hi`, carved in order. */
  function TunnelRun(tiles: seq<TileType>, axis: Axis, k: int, hi: int, fixed: int): (t: seq<TileType>)
    requires |tiles| == WIDTH * HEIGHT
    ensures |t| == |tiles|
    decreases hi - k
  {
    if k > hi then tiles
    else TunnelRun(CarveTunnelCell(tiles, TunnelCell(axis, k, fixed)), axis, k + 1, hi, fixed)
  }

  /** The tiles after `apply_horizontal_tunnel(a, b, fixed)` (axis
      Horizontal) or `apply_vertical_tunnel(a, b, fixed)` (axis Vertical). */
  function Tunnel(tiles: seq<TileType>, axis: Axis, a: int, b: int, fixed: int): (t: seq<TileType>)
    requires |tiles| == WIDTH * HEIGHT
    ensures |t| == |tiles|
  {
    TunnelRun(tiles, axis, Min(a, b), Max(a, b), fixed)
  }

  /** A tunnel only ever turns tiles into Floor, never touches index 0, and
      changes only cells it visits that pass the guard. */
  lemma {:induction false} TunnelRunOnlyCarves(tiles: seq<TileType>, axis: Axis, k: int, hi: int, fixed: int, i: int)
    requires |tiles| == WIDTH * HEIGHT && 0 <= i < |tiles|
    ensures var t := TunnelRun(tiles, axis, k, hi, fixed);
      t[i] == tiles[i] ||
      (t[i] == Floor && 0 < i && exists c :: k <= c <= hi && TunnelCell(axis, c, fixed) == i)
    decreases hi - k
  {
    if k <= hi {
      var next := CarveTunnelCell(tiles, TunnelCell(axis, k, fixed));
      TunnelRunOnlyCarves(next, axis, k + 1, hi, fixed, i);
    }
  }

  /** Every visited cell that passes the guard is Floor after the tunnel. */
  lemma {:induction false} TunnelRunCarves(tiles: seq<TileType>, axis: Axis, k: int, hi: int, fixed: int, c: int)
    requires |tiles| == WIDTH * HEIGHT
    requires k <= c <= hi && 0 < TunnelCell(axis, c, fixed) < WIDTH * HEIGHT
    ensures TunnelRun(tiles, axis, k, hi, fixed)[TunnelCell(axis, c, fixed)] == Floor
    decreases hi - k
  {
    var next := CarveTunnelCell(tiles, TunnelCell(axis, k, fixed));
    if c == k {
      TunnelRunOnlyCarves(next, axis, k + 1, hi, fixed, TunnelCell(axis, c, fixed));
    } else {
      TunnelRunCarves(next, axis, k + 1, hi, fixed, c);
    }
  }

  /** No tile that was Floor becomes Wall. */
  ghost predicate KeepsFloor(before: seq<TileType>, after: seq<TileType>) {
    |after| == |before| &&
    forall i :: 0 <= i < |before| && before[i] == Floor ==> after[i] == Floor
  }

  lemma TunnelKeepsFloor(tiles: seq<TileType>, axis: Axis, a: int, b: int, fixed: int)
    requires |tiles| == WIDTH * HEIGHT
    ensures KeepsFloor(tiles, Tunnel(tiles, axis, a, b, fixed))
    ensures Tunnel(tiles, axis, a, b, fixed)[0] == tiles[0]
  {
    forall i | 0 <= i < |tiles|
      ensures var t := Tunnel(tiles, axis, a, b, fixed);
        t[i] == tiles[i] || (t[i] == Floor && 0 < i)
    {
      TunnelRunOnlyCarves(tiles, axis, Min(a, b), Max(a, b), fixed, i);
    }
  }

  /** A straight segment whose cells that pass the tunnel guard are Floor. */
  ghost predicate SegmentCarved(tiles: seq<TileType>, axis: Axis, a: int, b: int, fixed: int) {
    |tiles| == WIDTH * HEIGHT &&
    forall c :: Min(a, b) <= c <= Max(a, b) && 0 < TunnelCell(axis, c, fixed) < WIDTH * HEIGHT ==>
      tiles[TunnelCell(axis, c, fixed)] == Floor
  }

  lemma TunnelCarvesSegment(tiles: seq<TileType>, axis: Axis, a: int, b: int, fixed: int)
    requires |tiles| == WIDTH * HEIGHT
    ensures SegmentCarved(Tunnel(tiles, axis, a, b, fixed), axis, a, b, fixed)
  {
    forall c | Min(a, b) <= c <= Max(a, b) && 0 < TunnelCell(axis, c, fixed) < WIDTH * HEIGHT
      ensures Tunnel(tiles, axis, a, b, fixed)[TunnelCell(axis, c, fixed)] == Floor
    {
      TunnelRunCarves(tiles, axis, Min(a, b), Max(a, b), fixed, c);
    }
  }

  lemma SegmentCarvedKept(before: seq<TileType>, after: seq<TileType>, axis: Axis, a: int, b: int, fixed: int)
    requires SegmentCarved(before, axis, a, b, fixed) && KeepsFloor(before, after)
    ensures SegmentCarved(after, axis, a, b, fixed)
  {
  }

  /** An L-shaped corridor from `p` to `q`: either along row p.y then down
      column q.x, or down column p.x then along row q.y. */
  ghost predicate Linked(tiles: seq<TileType>, p: (int, int), q: (int, int)) {
    (SegmentCarved(tiles, Horizontal, p.0, q.0, p.1) && SegmentCarved(tiles, Vertical, p.1, q.1, q.0)) ||
    (SegmentCarved(tiles, Vertical, p.1, q.1, p.0) && SegmentCarved(tiles, Horizontal, p.0, q.0, q.1))
  }

  lemma LinkedKept(before: seq<TileType>, after: seq<TileType>, p: (int, int), q: (int, int))
    requires Linked(before, p, q) && KeepsFloor(before, after)
    ensures Linked(after, p, q)
  {
    if SegmentCarved(before, Horizontal, p.0, q.0, p.1) && SegmentCarved(before, Vertical, p.1, q.1, q.0) {
      SegmentCarvedKept(before, after, Horizontal, p.0, q.0, p.1);
      SegmentCarvedKept(before, after, Vertical, p.1, q.1, q.0);
    } else {
      SegmentCarvedKept(before, after, Vertical, p.1, q.1, p.0);
      SegmentCarvedKept(before, after, Horizontal, p.0, q.0, q.1);
    }
  }

  /** The tiles after `join_rooms`: nothing when there is no earlier room;
      otherwise both legs of the corridor from the centre of the last room
      to the centre of the new one, the coin choosing which leg comes first. */
  function Join(tiles: seq<TileType>, rooms: seq<Rect>, newRoom: Rect, coin: int,
                center: Rect -> (int, int)): (t: seq<TileType>)
    requires |tiles| == WIDTH * HEIGHT
    ensures |t| == |tiles|
  {
    if rooms == [] then tiles
    else
      var (newX, newY) := center(newRoom);
      var (prevX, prevY) := center(rooms[|rooms| - 1]);
      if coin == 1 then
        Tunnel(Tunnel(tiles, Horizontal, prevX, newX, prevY), Vertical, prevY, newY, newX)
      else
        Tunnel(Tunnel(tiles, Vertical, prevY, newY, prevX), Horizontal, prevX, newX, newY)
  }

  /** Joining never walls a tile, and, when there is an earlier room, links
      the centre of the last room to the centre of the new one whichever
      way the coin lands. */
  lemma JoinLinks(tiles: seq<TileType>, rooms: seq<Rect>, newRoom: Rect, coin: int, center: Rect -> (int, int))
    requires |tiles| == WIDTH * HEIGHT
    ensures KeepsFloor(tiles, Join(tiles, rooms, newRoom, coin, center))
    ensures rooms == [] ==> Join(tiles, rooms, newRoom, coin, center) == tiles
    ensures rooms != [] ==>
      Linked(Join(tiles, rooms, newRoom, coin, center), center(rooms[|rooms| - 1]), center(newRoom))
  {
    if rooms != [] {
      var (newX, newY) := center(newRoom);
      var (prevX, prevY) := center(rooms[|rooms| - 1]);
      if coin == 1 {
        var t1 := Tunnel(tiles, Horizontal, prevX, newX, prevY);
        var t2 := Tunnel(t1, Vertical, prevY, newY, newX);
        TunnelKeepsFloor(tiles, Horizontal, prevX, newX, prevY);
        TunnelKeepsFloor(t1, Vertical, prevY, newY, newX);
        TunnelCarvesSegment(tiles, Horizontal, prevX, newX, prevY);
        TunnelCarvesSegment(t1, Vertical, prevY, newY, newX);
        SegmentCarvedKept(t1, t2, Horizontal, prevX, newX, prevY);
      } else {
        var t1 := Tunnel(tiles, Vertical, prevY, newY, prevX);
        var t2 := Tunnel(t1, Horizontal, prevX, newX, newY);
        TunnelKeepsFloor(tiles, Vertical, prevY, newY, prevX);
        TunnelKeepsFloor(t1, Horizontal, prevX, newX, newY);
        TunnelCarvesSegment(tiles, Vertical, prevY, newY, prevX);
        TunnelCarvesSegment(t1, Horizontal, prevX, newX, newY);
        SegmentCarvedKept(t1, t2, Vertical, prevY, newY, prevX);
      }
    }
  }

  // ---------------------------------------------------------------------
  // Specification of room-and-corridor generation
  // ---------------------------------------------------------------------

  /** The random numbers one pass of the generation loop draws: the room's
      width and height (`range(MIN_SIZE_ROOM, MAX_SIZE_ROOM)`, upper bound
      excluded), the two position dice and the corridor coin (`range(0, 2)`),
      the coin being consumed only when the room is accepted after another. */
  datatype RoomRoll = RoomRoll(width: int, height: int, xRoll: int, yRoll: int, coin: int)

  predicate ValidRoll(r: RoomRoll) {
    MIN_SIZE_ROOM <= r.width < MAX_SIZE_ROOM && MIN_SIZE_ROOM <= r.height < MAX_SIZE_ROOM &&
    1 <= r.xRoll <= 80 - r.width - 1 && 1 <= r.yRoll <= 50 - r.height - 1 &&
    0 <= r.coin < 2
  }

  /** The candidate room of one pass: `Rect::new(x, y, width, height)` with
      x and y one less than the dice. */
  function Candidate(r: RoomRoll, newRect: (int, int, int, int) -> Rect): Rect {
    newRect(r.xRoll - 1, r.yRoll - 1, r.width, r.height)
  }

  predicate IntersectsAny(room: Rect, rooms: seq<Rect>, intersect: (Rect, Rect) -> bool) {
    exists j :: 0 <= j < |rooms| && intersect(room, rooms[j])
  }

  /** The tiles and rooms of a map under construction. */
  datatype Layout = Layout(tiles: seq<TileType>, rooms: seq<Rect>)

  /** One pass of the loop: a candidate that intersects an accepted room is
      discarded; otherwise it is carved, joined to the previous room and
      appended. */
  function PlaceRoom(l: Layout, room: Rect, coin: int, intersect: (Rect, Rect) -> bool,
                     center: Rect -> (int, int)): (r: Layout)
    requires |l.tiles| == WIDTH * HEIGHT
    ensures |r.tiles| == |l.tiles|
  {
    if IntersectsAny(room, l.rooms, intersect) then l
    else Layout(Join(CarveRoom(l.tiles, room), l.rooms, room, coin, center), l.rooms + [room])
  }

  /** The layout after running the loop over `rolls`. */
  function Generate(l: Layout, rolls: seq<RoomRoll>, newRect: (int, int, int, int) -> Rect,
                    intersect: (Rect, Rect) -> bool, center: Rect -> (int, int)): (r: Layout)
    requires |l.tiles| == WIDTH * HEIGHT
    ensures |r.tiles| == |l.tiles|
    decreases |rolls|
  {
    if rolls == [] then l
    else Generate(PlaceRoom(l, Candidate(rolls[0], newRect), rolls[0].coin, intersect, center),
                  rolls[1..], newRect, intersect, center)
  }

  /** No room intersects a room accepted before it. */
  ghost predicate RoomsDisjoint(rooms: seq<Rect>, intersect: (Rect, Rect) -> bool) {
    forall i, j :: 0 <= i < j < |rooms| ==> !intersect(rooms[j], rooms[i])
  }

  /** Every cell of every room's interior is Floor. */
  ghost predicate RoomsCarved(tiles: seq<TileType>, rooms: seq<Rect>) {
    forall k, i :: 0 <= k < |rooms| && 0 <= i < |tiles| && InRoom(rooms[k], i) ==> tiles[i] == Floor
  }

  /** Each room is linked by an L-shaped corridor to the room before it. */
  ghost predicate ChainLinked(tiles: seq<TileType>, rooms: seq<Rect>, center: Rect -> (int, int)) {
    forall k :: 1 <= k < |rooms| ==> Linked(tiles, center(rooms[k - 1]), center(rooms[k]))
  }

  /** One pass keeps the rooms pairwise disjoint, carved and linked, never
      walls a tile, and either leaves the rooms alone (the candidate
      intersects an accepted room) or appends the candidate. */
  lemma PlaceRoomInvariants(l: Layout, room: Rect, coin: int, intersect: (Rect, Rect) -> bool,
                            center: Rect -> (int, int))
    requires |l.tiles| == WIDTH * HEIGHT
    requires RoomsDisjoint(l.rooms, intersect)
    requires RoomsCarved(l.tiles, l.rooms)
    requires ChainLinked(l.tiles, l.rooms, center)
    ensures var p := PlaceRoom(l, room, coin, intersect, center);
      && RoomsDisjoint(p.rooms, intersect)
      && RoomsCarved(p.tiles, p.rooms)
      && ChainLinked(p.tiles, p.rooms, center)
      && KeepsFloor(l.tiles, p.tiles)
      && (p.rooms == l.rooms || p.rooms == l.rooms + [room])
  {
    if !IntersectsAny(room, l.rooms, intersect) {
      var carved := CarveRoom(l.tiles, room);
      assert KeepsFloor(l.tiles, carved);
      JoinLinks(carved, l.rooms, room, coin, center);
      var joined := Join(carved, l.rooms, room, coin, center);
      var rooms' := l.rooms + [room];
      forall k, i | 0 <= k < |rooms'| && 0 <= i < |joined| && InRoom(rooms'[k], i)
        ensures joined[i] == Floor
      {
        if k < |l.rooms| {
          assert l.tiles[i] == Floor;
        } else {
          assert carved[i] == Floor;
        }
      }
      forall k | 1 <= k < |rooms'|
        ensures Linked(joined, center(rooms'[k - 1]), center(rooms'[k]))
      {
        if k < |l.rooms| {
          LinkedKept(l.tiles, carved, center(l.rooms[k - 1]), center(l.rooms[k]));
          LinkedKept(carved, joined, center(l.rooms[k - 1]), center(l.rooms[k]));
        }
      }
    }
  }

  /** The generation loop keeps its rooms pairwise disjoint, never walls a
      tile, keeps every room carved and keeps every room linked to its
      predecessor. */
  lemma {:induction false} GenerateInvariants(l: Layout, rolls: seq<RoomRoll>, newRect: (int, int, int, int) -> Rect,
                                              intersect: (Rect, Rect) -> bool, center: Rect -> (int, int))
    requires |l.tiles| == WIDTH * HEIGHT
    requires RoomsDisjoint(l.rooms, intersect)
    requires RoomsCarved(l.tiles, l.rooms)
    requires ChainLinked(l.tiles, l.rooms, center)
    ensures var g := Generate(l, rolls, newRect, intersect, center);
      && RoomsDisjoint(g.rooms, intersect)
      && RoomsCarved(g.tiles, g.rooms)
      && ChainLinked(g.tiles, g.rooms, center)
      && KeepsFloor(l.tiles, g.tiles)
    decreases |rolls|
  {
    if rolls != [] {
      var room := Candidate(rolls[0], newRect);
      var l' := PlaceRoom(l, room, rolls[0].coin, intersect, center);
      PlaceRoomInvariants(l, room, rolls[0].coin, intersect, center);
      GenerateInvariants(l', rolls[1..], newRect, intersect, center);
      assert Generate(l', rolls[1..], newRect, intersect, center) == Generate(l, rolls, newRect, intersect, center);
    }
  }

  /** The rooms the generation loop accepts, starting from `rooms`: the
      candidates, in order, that intersect no room accepted before them. */
  function Accepted(rooms: seq<Rect>, rolls: seq<RoomRoll>, newRect: (int, int, int, int) -> Rect,
                    intersect: (Rect, Rect) -> bool): (r: seq<Rect>)
    ensures |rooms| <= |r| <= |rooms| + |rolls|
    decreases |rolls|
  {
    if rolls == [] then rooms
    else
      var room := Candidate(rolls[0], newRect);
      Accepted(if IntersectsAny(room, rooms, intersect) then rooms else rooms + [room], rolls[1..], newRect, intersect)
  }

  /** The rooms of the generated layout depend only on the candidates, not
      on the tiles. */
  lemma {:induction false} GenerateRooms(l: Layout, rolls: seq<RoomRoll>, newRect: (int, int, int, int) -> Rect,
                                         intersect: (Rect, Rect) -> bool, center: Rect -> (int, int))
    requires |l.tiles| == WIDTH * HEIGHT
    ensures Generate(l, rolls, newRect, intersect, center).rooms == Accepted(l.rooms, rolls, newRect, intersect)
    decreases |rolls|
  {
    if rolls != [] {
      var room := Candidate(rolls[0], newRect);
      GenerateRooms(PlaceRoom(l, room, rolls[0].coin, intersect, center), rolls[1..], newRect, intersect, center);
    }
  }

  /** The generation loop only appends rooms, at most one per pass, and each
      appended room is the candidate of some pass. */
  lemma {:induction false} AcceptedAppends(rooms: seq<Rect>, rolls: seq<RoomRoll>, newRect: (int, int, int, int) -> Rect,
                                           intersect: (Rect, Rect) -> bool)
    ensures var r := Accepted(rooms, rolls, newRect, intersect);
      && r[..|rooms|] == rooms
      && forall k :: |rooms| <= k < |r| ==> exists j :: 0 <= j < |rolls| && r[k] == Candidate(rolls[j], newRect)
    decreases |rolls|
  {
    if rolls != [] {
      var room := Candidate(rolls[0], newRect);
      var rooms' := if IntersectsAny(room, rooms, intersect) then rooms else rooms + [room];
      AcceptedAppends(rooms', rolls[1..], newRect, intersect);
      var r := Accepted(rooms', rolls[1..], newRect, intersect);
      assert r[..|rooms|] == r[..|rooms'|][..|rooms|];
      forall k | |rooms| <= k < |r|
        ensures exists j :: 0 <= j < |rolls| && r[k] == Candidate(rolls[j], newRect)
      {
        if k < |rooms'| {
          assert r[k] == room == Candidate(rolls[0], newRect);
        } else {
          var j :| 0 <= j < |rolls[1..]| && r[k] == Candidate(rolls[1..][j], newRect);
          assert r[k] == Candidate(rolls[j + 1], newRect);
        }
      }
    }
  }

  /** The all-Wall grid generation starts from. */
  function SolidRock(): (t: seq<TileType>)
    ensures |t| == WIDTH * HEIGHT && forall i :: 0 <= i < |t| ==> t[i] == Wall
  {
    seq(WIDTH * HEIGHT, _ => Wall)
  }

  /** What generation from solid rock yields: at most one room per pass,
      each a candidate of some pass, pairwise disjoint, carved, and each
      linked to the one before it. */
  lemma GenerateFromRock(rolls: seq<RoomRoll>, newRect: (int, int, int, int) -> Rect,
                         intersect: (Rect, Rect) -> bool, center: Rect -> (int, int))
    ensures var g := Generate(Layout(SolidRock(), []), rolls, newRect, intersect, center);
      && |g.rooms| <= |rolls|
      && RoomsDisjoint(g.rooms, intersect)
      && RoomsCarved(g.tiles, g.rooms)
      && ChainLinked(g.tiles, g.rooms, center)
      && forall k :: 0 <= k < |g.rooms| ==>
           exists j :: 0 <= j < |rolls| && g.rooms[k] == Candidate(rolls[j], newRect)
  {
    GenerateInvariants(Layout(SolidRock(), []), rolls, newRect, intersect, center);
    GenerateRooms(Layout(SolidRock(), []), rolls, newRect, intersect, center);
    AcceptedAppends([], rolls, newRect, intersect);
  }

  // ---------------------------------------------------------------------
  // The map
  // ---------------------------------------------------------------------

  /** A `j` among the eight cells around `i`, decoded row by row. */
  predicate Adjacent(i: int, j: int) {
    var dx := j % WIDTH - i % WIDTH;
    var dy := j / WIDTH - i / WIDTH;
    -1 <= dx <= 1 && -1 <= dy <= 1 && (dx != 0 || dy != 0)
  }

  /** Cardinal when the two cells share a row or a column. */
  function CostOf(i: int, j: int): Cost {
    if i % WIDTH == j % WIDTH || i / WIDTH == j / WIDTH then Cardinal else Diagonal
  }

  /** The coordinates `is_exit_valid` and the player's move accept:
      1 <= x <= width - 1 and 1 <= y <= height - 1. Column 0 and row 0 are
      excluded, column 79 and row 49 are not. */
  predicate InsideBorder(x: int, y: int) {
    1 <= x <= WIDTH - 1 && 1 <= y <= HEIGHT - 1
  }

  class Map {
    var tiles: seq<TileType>
    var rooms: seq<Rect>
    const width: int := WIDTH
    const height: int := HEIGHT
    var revealedTiles: seq<bool>
    var visibleTiles: seq<bool>
    var blocked: seq<bool>
    var tileContent: seq<seq<Entity>>

    /** Every per-tile vector has one entry per cell. */
    ghost predicate Valid()
      reads this
    {
      |tiles| == WIDTH * HEIGHT && |revealedTiles| == WIDTH * HEIGHT &&
      |visibleTiles| == WIDTH * HEIGHT && |blocked| == WIDTH * HEIGHT &&
      |tileContent| == WIDTH * HEIGHT
    }

    /** The map `new_rooms_and_corridors` starts from: all Wall, nothing
        revealed, visible or blocked, no occupants, no rooms. */
    constructor ()
      ensures Valid()
      ensures tiles == SolidRock() && rooms == []
      ensures revealedTiles == seq(WIDTH * HEIGHT, _ => false)
      ensures visibleTiles == seq(WIDTH * HEIGHT, _ => false)
      ensures blocked == seq(WIDTH * HEIGHT, _ => false)
      ensures tileContent == seq(WIDTH * HEIGHT, _ => [])
    {
      tiles := SolidRock();
      rooms := [];
      revealedTiles := seq(WIDTH * HEIGHT, _ => false);
      visibleTiles := seq(WIDTH * HEIGHT, _ => false);
      blocked := seq(WIDTH * HEIGHT, _ => false);
      tileContent := seq(WIDTH * HEIGHT, _ => []);
    }

    /** `apply_room_to_map`: the interior of the room becomes Floor, every
        other tile is unchanged. */
    method ApplyRoomToMap(room: Rect)
      requires Valid() && InMap(room)
      modifies this`tiles
      ensures Valid()
      ensures tiles == CarveRoom(old(tiles), room)
    {
      var y := room.y1 + 1;
      while y <= room.y2
        invariant room.y1 + 1 <= y <= Max(room.y1 + 1, room.y2 + 1)
        invariant |tiles| == WIDTH * HEIGHT
        invariant forall i :: 0 <= i < |tiles| ==>
          tiles[i] == if room.x1 < i % WIDTH <= room.x2 && room.y1 < i / WIDTH < y then Floor else old(tiles)[i]
      {
        var x := room.x1 + 1;
        while x <= room.x2
          invariant room.x1 + 1 <= x <= Max(room.x1 + 1, room.x2 + 1)
          invariant |tiles| == WIDTH * HEIGHT
          invariant forall i :: 0 <= i < |tiles| ==>
            tiles[i] == if (room.x1 < i % WIDTH <= room.x2 && room.y1 < i / WIDTH < y) ||
                           (room.x1 < i % WIDTH < x && i / WIDTH == y)
                        then Floor else old(tiles)[i]
        {
          var index := GetIndexXY(x, y);
          IndexOfCell(x, y);
          tiles := tiles[index := Floor];
          x := x + 1;
        }
        y := y + 1;
      }
    }

    /** `apply_horizontal_tunnel(x1, x2, y)`: every column from min(x1, x2)
        to max(x1, x2) on row y whose index lies strictly between 0 and
        WIDTH * HEIGHT, in order. */
    method ApplyHorizontalTunnel(x1: int, x2: int, y: int)
      requires Valid()
      modifies this`tiles
      ensures Valid()
      ensures tiles == Tunnel(old(tiles), Horizontal, x1, x2, y)
    {
      var x := Min(x1, x2);
      while x <= Max(x1, x2)
        invariant Min(x1, x2) <= x <= Max(x1, x2) + 1
        invariant |tiles| == WIDTH * HEIGHT
        invariant TunnelRun(tiles, Horizontal, x, Max(x1, x2), y) == Tunnel(old(tiles), Horizontal, x1, x2, y)
        decreases Max(x1, x2) - x
      {
        var index := GetIndexXY(x, y);
        var mapFloorDimension := WIDTH * HEIGHT;
        if index > 0 && index < mapFloorDimension {
          tiles := tiles[index := Floor];
        }
        x := x + 1;
      }
    }

    /** `apply_vertical_tunnel(y1, y2, x)`: the same along column x. */
    method ApplyVerticalTunnel(y1: int, y2: int, x: int)
      requires Valid()
      modifies this`tiles
      ensures Valid()
      ensures tiles == Tunnel(old(tiles), Vertical, y1, y2, x)
    {
      var y := Min(y1, y2);
      while y <= Max(y1, y2)
        invariant Min(y1, y2) <= y <= Max(y1, y2) + 1
        invariant |tiles| == WIDTH * HEIGHT
        invariant TunnelRun(tiles, Vertical, y, Max(y1, y2), x) == Tunnel(old(tiles), Vertical, y1, y2, x)
        decreases Max(y1, y2) - y
      {
        var index := GetIndexXY(x, y);
        var mapFloorDimension := WIDTH * HEIGHT;
        if index > 0 && index < mapFloorDimension {
          tiles := tiles[index := Floor];
        }
        y := y + 1;
      }
    }

    /** `is_exit_valid`: false outside 1..width-1 x 1..height-1, otherwise
        whether the tile is unblocked. An accepted cell is inside the grid. */
    predicate IsExitValid(x: int, y: int)
      reads this
      requires Valid()
      ensures IsExitValid(x, y) <==>
        InsideBorder(x, y) && GetIndexXY(x, y) < WIDTH * HEIGHT && !blocked[GetIndexXY(x, y)]
    {
      if x < 1 || x > width - 1 || y < 1 || y > height - 1 then false
      else !blocked[GetIndexXY(x, y)]
    }

    /** `join_rooms`, with the coin supplied by the caller. */
    method JoinRooms(coin: int, newRoom: Rect, center: Rect -> (int, int))
      requires Valid()
      modifies this`tiles
      ensures Valid()
      ensures tiles == Join(old(tiles), rooms, newRoom, coin, center)
    {
      if rooms != [] {
        var (newX, newY) := center(newRoom);
        var (prevX, prevY) := center(rooms[|rooms| - 1]);
        if coin == 1 {
          ApplyHorizontalTunnel(prevX, newX, prevY);
          ApplyVerticalTunnel(prevY, newY, newX);
        } else {
          ApplyVerticalTunnel(prevY, newY, prevX);
          ApplyHorizontalTunnel(prevX, newX, newY);
        }
      }
    }

    /** `populate_blocked`: a tile is blocked exactly when it is a Wall,
        i.e. exactly when it is opaque. Tiles are not touched, so running it
        twice gives the same flags. */
    method PopulateBlocked()
      requires Valid()
      modifies this`blocked
      ensures Valid()
      ensures forall i :: 0 <= i < |blocked| ==> (blocked[i] <==> tiles[i] == Wall)
      ensures forall i :: 0 <= i < |blocked| ==> (blocked[i] <==> IsOpaque(i))
    {
      for index := 0 to |tiles|
        invariant |blocked| == WIDTH * HEIGHT
        invariant forall i :: 0 <= i < index ==> (blocked[i] <==> tiles[i] == Wall)
      {
        blocked := blocked[index := tiles[index] == Wall];
      }
    }

    /** `clear_content_index`: every occupant list becomes empty; the number
        of lists is unchanged. */
    method ClearContentIndex()
      requires Valid()
      modifies this`tileContent
      ensures Valid()
      ensures |tileContent| == old(|tileContent|)
      ensures forall i :: 0 <= i < |tileContent| ==> tileContent[i] == []
    {
      for index := 0 to |tileContent|
        invariant |tileContent| == WIDTH * HEIGHT
        invariant forall i :: 0 <= i < index ==> tileContent[i] == []
      {
        tileContent := tileContent[index := []];
      }
    }

    /** The body of the generation loop for one candidate room: it is
        accepted only if it intersects none of the accepted rooms; an
        accepted room is carved, joined to the previous one and appended. */
    method TryPlaceRoom(newRoom: Rect, coin: int, intersect: (Rect, Rect) -> bool, center: Rect -> (int, int))
      requires Valid() && InMap(newRoom)
      modifies this`tiles, this`rooms
      ensures Valid()
      ensures Layout(tiles, rooms) == PlaceRoom(Layout(old(tiles), old(rooms)), newRoom, coin, intersect, center)
    {
      var ok := true;
      for j := 0 to |rooms|
        invariant ok <==> !exists j' :: 0 <= j' < j && intersect(newRoom, rooms[j'])
      {
        if intersect(newRoom, rooms[j]) { ok := false; }
      }
      if ok {
        ApplyRoomToMap(newRoom);
        JoinRooms(coin, newRoom, center);
        rooms := rooms + [newRoom];
      }
    }

    /** The `for _ in 0..MAX_ROOMS` loop of `new_rooms_and_corridors`, one
        pass per roll. */
    method PlaceRooms(rolls: seq<RoomRoll>, newRect: (int, int, int, int) -> Rect,
                      intersect: (Rect, Rect) -> bool, center: Rect -> (int, int))
      requires Valid()
      requires forall k :: 0 <= k < |rolls| ==> InMap(Candidate(rolls[k], newRect))
      modifies this`tiles, this`rooms
      ensures Valid()
      ensures Layout(tiles, rooms) == Generate(Layout(old(tiles), old(rooms)), rolls, newRect, intersect, center)
    {
      ghost var start := Layout(tiles, rooms);
      for pass := 0 to |rolls|
        invariant Valid()
        invariant Generate(Layout(tiles, rooms), rolls[pass..], newRect, intersect, center) ==
                  Generate(start, rolls, newRect, intersect, center)
      {
        var roll := rolls[pass];
        var newRoom := Candidate(roll, newRect);
        TryPlaceRoom(newRoom, roll.coin, intersect, center);
        assert rolls[pass..][0] == roll && rolls[pass..][1..] == rolls[pass + 1..];
      }
    }

    /** `new_rooms_and_corridors`, with the random numbers of each of the
        MAX_ROOMS passes supplied as `rolls` and `Rect::new`, `intersect` and
        `center` supplied as functions. */
    static method NewRoomsAndCorridors(rolls: seq<RoomRoll>, newRect: (int, int, int, int) -> Rect,
                                       intersect: (Rect, Rect) -> bool, center: Rect -> (int, int))
      returns (m: Map)
      requires |rolls| == MAX_ROOMS
      requires forall k :: 0 <= k < |rolls| ==> ValidRoll(rolls[k])
      requires forall k :: 0 <= k < |rolls| ==> InMap(Candidate(rolls[k], newRect))
      ensures fresh(m) && m.Valid()
      ensures Layout(m.tiles, m.rooms) == Generate(Layout(SolidRock(), []), rolls, newRect, intersect, center)
      ensures |m.rooms| <= MAX_ROOMS
      ensures RoomsDisjoint(m.rooms, intersect)
      ensures RoomsCarved(m.tiles, m.rooms)
      ensures ChainLinked(m.tiles, m.rooms, center)
      ensures forall k :: 0 <= k < |m.rooms| ==>
        exists j :: 0 <= j < |rolls| && m.rooms[k] == Candidate(rolls[j], newRect)
      ensures m.revealedTiles == seq(WIDTH * HEIGHT, _ => false)
      ensures m.visibleTiles == seq(WIDTH * HEIGHT, _ => false)
      ensures m.blocked == seq(WIDTH * HEIGHT, _ => false)
      ensures m.tileContent == seq(WIDTH * HEIGHT, _ => [])
    {
      m := new Map();
      m.PlaceRooms(rolls, newRect, intersect, center);
      GenerateFromRock(rolls, newRect, intersect, center);
    }

    /** `is_opaque`: a tile blocks sight exactly when it is a Wall. */
    predicate IsOpaque(index: nat)
      reads this
      requires Valid() && index < WIDTH * HEIGHT
      ensures IsOpaque(index) <==> tiles[index] != Floor
    {
      tiles[index] == Wall
    }

    /** `j` is one of the eight cells around `index`, inside the bounds
        `is_exit_valid` accepts, and not blocked. */
    ghost predicate OpenExit(index: nat, j: int)
      reads this
      requires Valid()
    {
      0 <= j < WIDTH * HEIGHT && Adjacent(index, j) &&
      InsideBorder(j % WIDTH, j / WIDTH) && !blocked[j]
    }

    /** `get_available_exits`: the open cells among the eight around
        `index`, each tagged with its cost class, in the order the source
        pushes them. */
    function GetAvailableExits(index: nat): (exits: seq<Exit>)
      reads this
      requires Valid() && index < WIDTH * HEIGHT
      ensures |exits| <= 8
    {
      ExitsAt(index, NeighbourOffsets)
    }

    /** The exits pushed for `offsets`, one `if self.is_exit_valid(..)
        { exits.push(..) }` per offset, at coordinates `(x + dx, y + dy)`
        and index `index + dy * w + dx`. */
    function ExitsAt(index: nat, offsets: seq<(int, int)>): (exits: seq<Exit>)
      reads this
      requires Valid()
      ensures |exits| <= |offsets|
    {
      if offsets == [] then []
      else
        var (dx, dy) := offsets[0];
        ExitIf(index % WIDTH + dx, index / WIDTH + dy, index + dy * WIDTH + dx, CostClass(dx, dy)) +
        ExitsAt(index, offsets[1..])
    }

    /** One `if self.is_exit_valid(x, y) { exits.push((target, cost)) }`. */
    function ExitIf(x: int, y: int, target: int, cost: Cost): seq<Exit>
      reads this
      requires Valid()
    {
      if IsExitValid(x, y) then [Exit(target, cost)] else []
    }
  }

  /** The neighbour offsets `(dx, dy)` in the order `get_available_exits`
      tries them: west, east, north, south, then north-west, north-east,
      south-west, south-east. */
  const NeighbourOffsets: seq<(int, int)> :=
    [(-1, 0), (1, 0), (0, -1), (0, 1), (-1, -1), (1, -1), (-1, 1), (1, 1)]

  predicate IsOffset(d: (int, int)) {
    -1 <= d.0 <= 1 && -1 <= d.1 <= 1 && d != (0, 0)
  }

  /** Cardinal (cost 1.0) for a horizontal or vertical step, Diagonal (cost
      1.45) otherwise. */
  function CostClass(dx: int, dy: int): Cost {
    if dx == 0 || dy == 0 then Cardinal else Diagonal
  }

  /** The neighbour of `index` at offset (dx, dy), when `is_exit_valid`
      accepts its coordinates, is `index + dy * WIDTH + dx`: an adjacent
      cell of the grid whose cost class follows the offset. */
  lemma Neighbour(index: nat, dx: int, dy: int)
    requires index < WIDTH * HEIGHT
    requires -1 <= dx <= 1 && -1 <= dy <= 1 && (dx != 0 || dy != 0)
    ensures var x, y := index % WIDTH, index / WIDTH;
      InsideBorder(x + dx, y + dy) ==>
        var j := index + dy * WIDTH + dx;
        && GetIndexXY(x + dx, y + dy) == j
        && 0 <= j < WIDTH * HEIGHT
        && j % WIDTH == x + dx && j / WIDTH == y + dy
        && Adjacent(index, j)
        && CostOf(index, j) == (if dx == 0 || dy == 0 then Cardinal else Diagonal)
  {
    var x, y := index % WIDTH, index / WIDTH;
    if InsideBorder(x + dx, y + dy) {
      IndexOfCell(x + dx, y + dy);
    }
  }

  /** The exit pushed for offset (dx, dy), at coordinates (x, y) and index
      `target`, is an open neighbour with the right cost class, and it is
      pushed whenever that neighbour is open. */
  lemma ExitIfExact(m: Map, index: nat, dx: int, dy: int, x: int, y: int, target: int, cost: Cost)
    requires m.Valid() && index < WIDTH * HEIGHT
    requires -1 <= dx <= 1 && -1 <= dy <= 1 && (dx != 0 || dy != 0)
    requires x == index % WIDTH + dx && y == index / WIDTH + dy && target == index + dy * WIDTH + dx
    requires cost == CostClass(dx, dy)
    ensures forall e :: e in m.ExitIf(x, y, target, cost) ==>
      m.OpenExit(index, e.index) && e.cost == CostOf(index, e.index)
    ensures m.OpenExit(index, target) ==> Exit(target, cost) in m.ExitIf(x, y, target, cost)
  {
    Neighbour(index, dx, dy);
  }

  /** Every exit pushed for a list of offsets is an open neighbour with the
      right cost class. */
  lemma {:induction false} ExitsAtSound(m: Map, index: nat, offsets: seq<(int, int)>, e: Exit)
    requires m.Valid() && index < WIDTH * HEIGHT
    requires forall k :: 0 <= k < |offsets| ==> IsOffset(offsets[k])
    requires e in m.ExitsAt(index, offsets)
    ensures m.OpenExit(index, e.index) && e.cost == CostOf(index, e.index)
    decreases |offsets|
  {
    var (dx, dy) := offsets[0];
    var x, y, target := index % WIDTH + dx, index / WIDTH + dy, index + dy * WIDTH + dx;
    if e in m.ExitIf(x, y, target, CostClass(dx, dy)) {
      ExitIfExact(m, index, dx, dy, x, y, target, CostClass(dx, dy));
    } else {
      ExitsAtSound(m, index, offsets[1..], e);
    }
  }

  /** Every open neighbour whose offset is in the list is pushed, with its
      cost class. */
  lemma {:induction false} ExitsAtComplete(m: Map, index: nat, offsets: seq<(int, int)>, j: int)
    requires m.Valid() && index < WIDTH * HEIGHT
    requires forall k :: 0 <= k < |offsets| ==> IsOffset(offsets[k])
    requires m.OpenExit(index, j)
    requires (j % WIDTH - index % WIDTH, j / WIDTH - index / WIDTH) in offsets
    ensures Exit(j, CostOf(index, j)) in m.ExitsAt(index, offsets)
    decreases |offsets|
  {
    var (dx, dy) := offsets[0];
    var x, y, target := index % WIDTH + dx, index / WIDTH + dy, index + dy * WIDTH + dx;
    ExitIfExact(m, index, dx, dy, x, y, target, CostClass(dx, dy));
    if offsets[0] != (j % WIDTH - index % WIDTH, j / WIDTH - index / WIDTH) {
      ExitsAtComplete(m, index, offsets[1..], j);
    } else {
      assert j == target;
    }
  }

  /** Every exit `get_available_exits` lists is an open neighbour with the
      right cost class. */
  lemma AvailableExitsSound(m: Map, index: nat, e: Exit)
    requires m.Valid() && index < WIDTH * HEIGHT
    requires e in m.GetAvailableExits(index)
    ensures m.OpenExit(index, e.index) && e.cost == CostOf(index, e.index)
  {
    ExitsAtSound(m, index, NeighbourOffsets, e);
  }

  /** Every open neighbour of a cell is listed by `get_available_exits`,
      with its cost class. */
  lemma AvailableExitsComplete(m: Map, index: nat, j: int)
    requires m.Valid() && index < WIDTH * HEIGHT
    requires m.OpenExit(index, j)
    ensures Exit(j, CostOf(index, j)) in m.GetAvailableExits(index)
  {
    ExitsAtComplete(m, index, NeighbourOffsets, j);
  }
}
