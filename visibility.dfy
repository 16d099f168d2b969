/** The visibility system of src/visibility_system.rs: every entity with a
    dirty viewshed recomputes the tiles it sees, clipped to the map, and the
    player's view is written into the map's `visible_tiles` and
    `revealed_tiles` grids. The field-of-view computation is rltk's and is
    supplied as a function of the viewer's point and range; the map's tiles,
    which it reads, do not change while the system runs. */
module Visibility {
  import opened Constants
  import opened MapGrid
  import opened Components

  predicate OnMap(p: Point) {
    0 <= p.x < WIDTH && 0 <= p.y < HEIGHT
  }

  /** `retain` with the on-map test: the points of `pts` that lie on the map,
      in their order. */
  function Retain(pts: seq<Point>): (r: seq<Point>)
    ensures |r| <= |pts|
    ensures forall p :: p in r <==> p in pts && OnMap(p)
  {
    if pts == [] then []
    else (if OnMap(pts[0]) then [pts[0]] else []) + Retain(pts[1..])
  }

  /** The index of a point of the map in the tile grids. */
  function TileIndex(p: Point): (i: nat)
    requires OnMap(p)
    ensures i < WIDTH * HEIGHT
  {
    GetIndexXY(p.x, p.y)
  }

  predicate AllOnMap(pts: seq<Point>) {
    forall k :: 0 <= k < |pts| ==> OnMap(pts[k])
  }

  /** A grid after setting the entry of each point of `pts` to true, point
      by point. */
  function Mark(grid: seq<bool>, pts: seq<Point>): (r: seq<bool>)
    requires |grid| == WIDTH * HEIGHT && AllOnMap(pts)
    ensures |r| == |grid|
    decreases |pts|
  {
    if pts == [] then grid
    else Mark(grid[TileIndex(pts[0]) := true], pts[1..])
  }

  /** Marking sets exactly the entries of the marked points and keeps every
      entry that was already set. */
  lemma {:induction false} MarkSpec(grid: seq<bool>, pts: seq<Point>, i: int)
    requires |grid| == WIDTH * HEIGHT && AllOnMap(pts) && 0 <= i < |grid|
    ensures Mark(grid, pts)[i] <==> grid[i] || exists p :: p in pts && TileIndex(p) == i
    decreases |pts|
  {
    if pts != [] {
      MarkSpec(grid[TileIndex(pts[0]) := true], pts[1..], i);
      if exists p :: p in pts[1..] && TileIndex(p) == i {
        var p :| p in pts[1..] && TileIndex(p) == i;
        assert p in pts;
      }
      if exists p :: p in pts && TileIndex(p) == i {
        var p :| p in pts && TileIndex(p) == i;
        if p != pts[0] {
          assert p in pts[1..];
        }
      }
    }
  }

  function Blank(): (g: seq<bool>)
    ensures |g| == WIDTH * HEIGHT && forall i :: 0 <= i < |g| ==> !g[i]
  {
    seq(WIDTH * HEIGHT, _ => false)
  }

  // ---------------------------------------------------------------------
  // Specification of the system
  // ---------------------------------------------------------------------

  /** The part of the world the system changes: the viewsheds and the map's
      visible and revealed grids. */
  datatype VisState = VisState(viewsheds: map<Entity, Viewshed>, visible: seq<bool>, revealed: seq<bool>)

  predicate GridsValid(s: VisState) {
    |s.visible| == WIDTH * HEIGHT && |s.revealed| == WIDTH * HEIGHT
  }

  /** The tiles a viewer at `pos` with this viewshed sees on the map. */
  function Sight(vs: Viewshed, pos: Position, fov: (Point, int) -> seq<Point>): (r: seq<Point>)
    ensures AllOnMap(r)
  {
    var r := Retain(fov(Point(pos.x, pos.y), vs.range));
    assert forall k :: 0 <= k < |r| ==> r[k] in r;
    r
  }

  /** The body of the join for one dirty viewshed: it becomes clean and holds
      the clipped field of view; for the player the visible grid becomes
      exactly that view and every tile of it is revealed. */
  function Refresh(s: VisState, e: Entity, pos: Position, isPlayer: bool, fov: (Point, int) -> seq<Point>): (r: VisState)
    requires e in s.viewsheds && GridsValid(s)
    ensures GridsValid(r) && r.viewsheds.Keys == s.viewsheds.Keys
  {
    var vs := s.viewsheds[e];
    var tiles := Sight(vs, pos, fov);
    var viewsheds := s.viewsheds[e := Viewshed(tiles, vs.range, false)];
    if isPlayer then VisState(viewsheds, Mark(Blank(), tiles), Mark(s.revealed, tiles))
    else s.(viewsheds := viewsheds)
  }

  /** An entity the system processes: it has a dirty viewshed and a
      position. */
  predicate Processed(s: VisState, positions: map<Entity, Position>, e: Entity) {
    e in s.viewsheds && e in positions && s.viewsheds[e].dirty
  }

  /** The join loop of the system from entity `k` on. */
  function VisibilityFrom(s: VisState, k: nat, n: nat, positions: map<Entity, Position>, players: set<Entity>,
                          fov: (Point, int) -> seq<Point>): (r: VisState)
    requires GridsValid(s)
    ensures GridsValid(r) && r.viewsheds.Keys == s.viewsheds.Keys
    decreases n - k
  {
    if k >= n then s
    else if Processed(s, positions, k) then
      VisibilityFrom(Refresh(s, k, positions[k], k in players, fov), k + 1, n, positions, players, fov)
    else VisibilityFrom(s, k + 1, n, positions, players, fov)
  }

  /** Only dirty viewsheds of entities with a position are recomputed; each
      ends clean and holds only tiles of the map. Every other viewshed is
      left as it was. */
  lemma {:induction false} ViewshedsAfter(s: VisState, k: nat, n: nat, positions: map<Entity, Position>,
                                          players: set<Entity>, fov: (Point, int) -> seq<Point>, e: Entity)
    requires GridsValid(s) && e in s.viewsheds
    ensures var r := VisibilityFrom(s, k, n, positions, players, fov);
      r.viewsheds[e] ==
        if k <= e < n && Processed(s, positions, e)
        then Viewshed(Sight(s.viewsheds[e], positions[e], fov), s.viewsheds[e].range, false)
        else s.viewsheds[e]
    decreases n - k
  {
    if k < n {
      if Processed(s, positions, k) {
        ViewshedsAfter(Refresh(s, k, positions[k], k in players, fov), k + 1, n, positions, players, fov, e);
      } else {
        ViewshedsAfter(s, k + 1, n, positions, players, fov, e);
      }
    }
  }

  /** A revealed tile stays revealed. */
  lemma {:induction false} RevealedMonotone(s: VisState, k: nat, n: nat, positions: map<Entity, Position>,
                                            players: set<Entity>, fov: (Point, int) -> seq<Point>, i: int)
    requires GridsValid(s) && 0 <= i < WIDTH * HEIGHT && s.revealed[i]
    ensures VisibilityFrom(s, k, n, positions, players, fov).revealed[i]
    decreases n - k
  {
    if k < n {
      var s' := if Processed(s, positions, k) then Refresh(s, k, positions[k], k in players, fov) else s;
      if Processed(s, positions, k) && k in players {
        MarkSpec(s.revealed, Sight(s.viewsheds[k], positions[k], fov), i);
      }
      RevealedMonotone(s', k + 1, n, positions, players, fov, i);
    }
  }

  /** Every visible tile is revealed. */
  predicate VisibleRevealed(s: VisState)
    requires GridsValid(s)
  {
    forall i :: 0 <= i < |s.visible| && s.visible[i] ==> s.revealed[i]
  }

  /** The system keeps every visible tile revealed. */
  lemma {:induction false} VisibleStaysRevealed(s: VisState, k: nat, n: nat, positions: map<Entity, Position>,
                                                players: set<Entity>, fov: (Point, int) -> seq<Point>)
    requires GridsValid(s) && VisibleRevealed(s)
    ensures VisibleRevealed(VisibilityFrom(s, k, n, positions, players, fov))
    decreases n - k
  {
    if k < n {
      if Processed(s, positions, k) {
        var s' := Refresh(s, k, positions[k], k in players, fov);
        if k in players {
          var tiles := Sight(s.viewsheds[k], positions[k], fov);
          forall i | 0 <= i < |s'.visible| && s'.visible[i]
            ensures s'.revealed[i]
          {
            MarkSpec(Blank(), tiles, i);
            MarkSpec(s.revealed, tiles, i);
          }
        }
        VisibleStaysRevealed(s', k + 1, n, positions, players, fov);
      } else {
        VisibleStaysRevealed(s, k + 1, n, positions, players, fov);
      }
    }
  }

  /** Entities without the Player marker never touch the grids. */
  lemma {:induction false} NonPlayersKeepGrids(s: VisState, k: nat, n: nat, positions: map<Entity, Position>,
                                               players: set<Entity>, fov: (Point, int) -> seq<Point>)
    requires GridsValid(s)
    requires forall j :: k <= j < n && Processed(s, positions, j) ==> j !in players
    ensures var r := VisibilityFrom(s, k, n, positions, players, fov);
      r.visible == s.visible && r.revealed == s.revealed
    decreases n - k
  {
    if k < n {
      if Processed(s, positions, k) {
        var s' := Refresh(s, k, positions[k], k in players, fov);
        assert forall j :: k < j < n && Processed(s', positions, j) ==> Processed(s, positions, j);
        NonPlayersKeepGrids(s', k + 1, n, positions, players, fov);
      } else {
        NonPlayersKeepGrids(s, k + 1, n, positions, players, fov);
      }
    }
  }

  /** With a single processed player `p`, the visible grid afterwards holds
      exactly the tiles that player sees, and the revealed grid adds them to
      what was revealed before. */
  lemma {:induction false} PlayerGrids(s: VisState, k: nat, n: nat, positions: map<Entity, Position>,
                                       players: set<Entity>, fov: (Point, int) -> seq<Point>, p: Entity, i: int)
    requires GridsValid(s) && 0 <= i < WIDTH * HEIGHT
    requires k <= p < n && Processed(s, positions, p) && p in players
    requires forall j :: k <= j < n && j != p && Processed(s, positions, j) ==> j !in players
    ensures var r := VisibilityFrom(s, k, n, positions, players, fov);
      var tiles := Sight(s.viewsheds[p], positions[p], fov);
      && (r.visible[i] <==> exists t :: t in tiles && TileIndex(t) == i)
      && (r.revealed[i] <==> s.revealed[i] || exists t :: t in tiles && TileIndex(t) == i)
    decreases n - k
  {
    var s' := if Processed(s, positions, k) then Refresh(s, k, positions[k], k in players, fov) else s;
    if k < p {
      assert s'.viewsheds[p] == s.viewsheds[p] && Processed(s', positions, p);
      assert forall j :: k < j < n && Processed(s', positions, j) ==> Processed(s, positions, j);
      PlayerGrids(s', k + 1, n, positions, players, fov, p, i);
      if Processed(s, positions, k) {
        assert s'.revealed == s.revealed;
      }
    } else {
      var tiles := Sight(s.viewsheds[p], positions[p], fov);
      assert forall j :: k < j < n && Processed(s', positions, j) ==> Processed(s, positions, j);
      NonPlayersKeepGrids(s', k + 1, n, positions, players, fov);
      MarkSpec(Blank(), tiles, i);
      MarkSpec(s.revealed, tiles, i);
    }
  }

  // ---------------------------------------------------------------------
  // The system
  // ---------------------------------------------------------------------

  function CurrentVis(w: World): VisState
    reads w, w.dungeon
  {
    VisState(w.viewsheds, w.dungeon.visibleTiles, w.dungeon.revealedTiles)
  }

  /** `for tile in map.visible_tiles.iter_mut() { *tile = false }`. */
  method ClearVisible(m: Map)
    requires m.Valid()
    modifies m`visibleTiles
    ensures m.Valid() && m.visibleTiles == Blank()
  {
    for index := 0 to |m.visibleTiles|
      invariant |m.visibleTiles| == WIDTH * HEIGHT
      invariant forall i :: 0 <= i < index ==> !m.visibleTiles[i]
    {
      m.visibleTiles := m.visibleTiles[index := false];
    }
  }

  /** The loop over the player's visible tiles: each one is revealed and
      made visible. */
  method RevealTiles(m: Map, tiles: seq<Point>)
    requires m.Valid() && AllOnMap(tiles)
    modifies m`visibleTiles, m`revealedTiles
    ensures m.Valid()
    ensures m.visibleTiles == Mark(old(m.visibleTiles), tiles)
    ensures m.revealedTiles == Mark(old(m.revealedTiles), tiles)
  {
    for j := 0 to |tiles|
      invariant m.Valid()
      invariant Mark(m.visibleTiles, tiles[j..]) == Mark(old(m.visibleTiles), tiles)
      invariant Mark(m.revealedTiles, tiles[j..]) == Mark(old(m.revealedTiles), tiles)
    {
      assert tiles[j..][0] == tiles[j] && tiles[j..][1..] == tiles[j + 1..];
      var visibility := tiles[j];
      var index := GetIndexXY(visibility.x, visibility.y);
      m.revealedTiles := m.revealedTiles[index := true];
      m.visibleTiles := m.visibleTiles[index := true];
    }
  }

  /** The body of the join for one dirty viewshed. */
  method RefreshViewshed(entity: Entity, fov: (Point, int) -> seq<Point>, w: World)
    requires w.Valid() && entity in w.viewsheds && entity in w.positions
    modifies w`viewsheds, w.dungeon`visibleTiles, w.dungeon`revealedTiles
    ensures w.Valid()
    ensures CurrentVis(w) == Refresh(old(CurrentVis(w)), entity, w.positions[entity], entity in w.players, fov)
  {
    var m := w.dungeon;
    var viewshed := w.viewsheds[entity];
    var pos := w.positions[entity];
    var visibleTiles := Sight(viewshed, pos, fov);
    w.viewsheds := w.viewsheds[entity := Viewshed(visibleTiles, viewshed.range, false)];
    if entity in w.players {
      ClearVisible(m);
      RevealTiles(m, visibleTiles);
    }
  }

  /** `VisibilitySystem::run`. */
  method Run(fov: (Point, int) -> seq<Point>, w: World)
    requires w.Valid()
    modifies w`viewsheds, w.dungeon`visibleTiles, w.dungeon`revealedTiles
    ensures w.Valid()
    ensures CurrentVis(w) == VisibilityFrom(old(CurrentVis(w)), 0, w.next, w.positions, w.players, fov)
  {
    ghost var start := CurrentVis(w);
    var n := w.next;
    for entity := 0 to n
      invariant w.Valid()
      invariant VisibilityFrom(CurrentVis(w), entity, n, w.positions, w.players, fov) ==
                VisibilityFrom(start, 0, n, w.positions, w.players, fov)
    {
      if entity in w.viewsheds && entity in w.positions {
        if w.viewsheds[entity].dirty {
          RefreshViewshed(entity, fov, w);
        }
      }
    }
  }
}
