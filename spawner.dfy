/** Entity creation of src/spawner.rs: the player, monsters and health
    potions, and the random spawn points of a room. The random number
    generator is replaced by the rolls it would produce: the artifact-count
    roll of `roll_dice(1, max_amount + 2)`, and the (x, y) picks of the retry
    loop, each in `1..=|x2 - x1|` and `1..=|y2 - y1|`. The picks are also the
    loop's fuel: when they run out before enough distinct cells are drawn,
    the result is `None`. */
module Spawner {
  import opened Constants
  import opened MapGrid
  import opened Components

  const MAX_MONSTERS: int := 4
  const MAX_ITEMS: int := 2
  const PLAYER_ORDER: int := 0
  const MONSTER_ORDER: int := 1
  const ITEM_ORDER: int := 2

  // ---------------------------------------------------------------------
  // Spawn points
  // ---------------------------------------------------------------------

  /** A pick of the retry loop within the documented dice ranges. */
  predicate ValidPick(room: Rect, p: (int, int)) {
    1 <= p.0 <= Abs(room.x2 - room.x1) && 1 <= p.1 <= Abs(room.y2 - room.y1)
  }

  predicate ValidPicks(room: Rect, picks: seq<(int, int)>) {
    forall k :: 0 <= k < |picks| ==> ValidPick(room, picks[k])
  }

  /** The cell a pick names: `(y1 + dy) as usize * MAP_WIDTH + (x1 + dx) as
      usize`, in wrapping `usize` arithmetic. */
  function PickIndex(room: Rect, p: (int, int)): nat {
    GetIndexXY(room.x1 + p.0, room.y1 + p.1)
  }

  /** A cell `y * MAP_WIDTH + x` with `x1 < x <= x1 + |x2 - x1|` and
      `y1 < y <= y1 + |y2 - y1|`. */
  ghost predicate InSpawnArea(room: Rect, idx: nat) {
    exists x, y ::
      room.x1 < x <= room.x1 + Abs(room.x2 - room.x1) &&
      room.y1 < y <= room.y1 + Abs(room.y2 - room.y1) &&
      idx == GetIndexXY(x, y)
  }

  predicate Distinct(s: seq<nat>) {
    forall i, j :: 0 <= i < j < |s| ==> s[i] != s[j]
  }

  /** The spawn-point loop once `points` have been chosen: picks are drawn
      until `count` distinct cells are held; a pick naming a held cell is
      drawn again. */
  function SpawnPointsFrom(points: seq<nat>, count: nat, room: Rect, picks: seq<(int, int)>): Option<seq<nat>>
    decreases |picks|
  {
    if |points| >= count then Some(points)
    else if picks == [] then None
    else
      var idx := PickIndex(room, picks[0]);
      SpawnPointsFrom(if idx in points then points else points + [idx], count, room, picks[1..])
  }

  /** The loop yields `count` distinct cells of the spawn area, extending the
      cells already held. */
  lemma {:induction false} SpawnPointsSpec(points: seq<nat>, count: nat, room: Rect, picks: seq<(int, int)>)
    requires ValidPicks(room, picks) && Distinct(points) && |points| <= count
    requires forall k :: 0 <= k < |points| ==> InSpawnArea(room, points[k])
    ensures var r := SpawnPointsFrom(points, count, room, picks);
      r.Some? ==>
        && |r.value| == count && Distinct(r.value) && points <= r.value
        && forall k :: 0 <= k < |r.value| ==> InSpawnArea(room, r.value[k])
    decreases |picks|
  {
    if |points| < count && picks != [] {
      var p := picks[0];
      var idx := PickIndex(room, p);
      assert ValidPick(room, p);
      assert InSpawnArea(room, idx) by {
        var x, y := room.x1 + p.0, room.y1 + p.1;
        assert room.x1 < x <= room.x1 + Abs(room.x2 - room.x1);
        assert room.y1 < y <= room.y1 + Abs(room.y2 - room.y1);
        assert idx == GetIndexXY(x, y);
      }
      var points' := if idx in points then points else points + [idx];
      assert forall k :: 0 <= k < |picks[1..]| ==> picks[1..][k] == picks[k + 1];
      SpawnPointsSpec(points', count, room, picks[1..]);
    }
  }

  /** The `while !added` loop: picks are drawn from `drawn` on until one
      names a cell not held yet, which is appended; `added` is false when
      the picks run out first. */
  method DrawSpawnPoint(room: Rect, points: seq<nat>, ghost count: nat, picks: seq<(int, int)>, drawn: nat)
      returns (points': seq<nat>, drawn': nat, added: bool)
    requires drawn <= |picks| && |points| < count
    ensures drawn <= drawn' <= |picks|
    ensures added ==>
      (|points'| == |points| + 1 &&
       SpawnPointsFrom(points', count, room, picks[drawn'..]) == SpawnPointsFrom(points, count, room, picks[drawn..]))
    ensures !added ==> SpawnPointsFrom(points, count, room, picks[drawn..]) == None
  {
    points', drawn', added := points, drawn, false;
    while !added
      invariant drawn <= drawn' <= |picks|
      invariant |points'| == if added then |points| + 1 else |points|
      invariant SpawnPointsFrom(points', count, room, picks[drawn'..]) == SpawnPointsFrom(points, count, room, picks[drawn..])
      decreases |picks| - drawn', !added
    {
      if drawn' == |picks| {
        return;
      }
      var (dx, dy) := picks[drawn'];
      SpawnPointsStep(points', count, room, picks, drawn');
      drawn' := drawn' + 1;
      var x := room.x1 + dx;
      var y := room.y1 + dy;
      var idx := GetIndexXY(x, y);
      if idx !in points' {
        points' := points' + [idx];
        added := true;
      }
    }
  }

  /** Pick `i` either names a held cell, which is drawn again, or is
      appended. */
  lemma SpawnPointsStep(points: seq<nat>, count: nat, room: Rect, picks: seq<(int, int)>, i: nat)
    requires i < |picks| && |points| < count
    ensures var idx := PickIndex(room, picks[i]);
      SpawnPointsFrom(points, count, room, picks[i..]) ==
      SpawnPointsFrom(if idx in points then points else points + [idx], count, room, picks[i + 1..])
  {
    assert picks[i..][0] == picks[i] && picks[i..][1..] == picks[i + 1..];
  }

  /** `build_spawn_points_by_max_amount`: `roll` is the artifact-count roll,
      within `1..=max_amount + 2`. */
  method BuildSpawnPointsByMaxAmount(room: Rect, maxAmount: int, roll: int, picks: seq<(int, int)>)
      returns (r: Option<seq<nat>>)
    requires 1 <= roll <= maxAmount + 2 && ValidPicks(room, picks)
    ensures r == SpawnPointsFrom([], Max(0, roll - 3), room, picks)
    ensures r.Some? ==>
      && |r.value| == Max(0, roll - 3) <= Max(0, maxAmount - 1)
      && Distinct(r.value)
      && forall k :: 0 <= k < |r.value| ==> InSpawnArea(room, r.value[k])
  {
    ghost var count := Max(0, roll - 3);
    SpawnPointsSpec([], count, room, picks);
    var spawnPoints: seq<nat> := [];
    var numArtifacts := roll - 3;
    var drawn := 0;
    var i := 0;
    while i < numArtifacts
      invariant 0 <= i && (numArtifacts <= 0 ==> i == 0) && (numArtifacts > 0 ==> i <= numArtifacts)
      invariant |spawnPoints| == i && drawn <= |picks|
      invariant SpawnPointsFrom(spawnPoints, count, room, picks[drawn..]) == SpawnPointsFrom([], count, room, picks)
    {
      var added;
      spawnPoints, drawn, added := DrawSpawnPoint(room, spawnPoints, count, picks, drawn);
      if !added {
        return None;
      }
      i := i + 1;
    }
    return Some(spawnPoints);
  }

  /** Inside a room of the map (x1 <= x2, y1 <= y2), `idx % MAP_WIDTH` and
      `idx / MAP_WIDTH` recover the cell a spawn point was built from, and
      that cell is in the room's interior. */
  lemma SpawnPointDecodes(room: Rect, idx: nat, x: int, y: int)
    requires InMap(room) && room.x1 <= room.x2 && room.y1 <= room.y2
    requires room.x1 < x <= room.x2 && room.y1 < y <= room.y2 && idx == GetIndexXY(x, y)
    ensures idx < WIDTH * HEIGHT && idx % MAP_WIDTH == x && idx / MAP_WIDTH == y
    ensures InRoom(room, idx)
  {
    IndexOfCell(x, y);
  }

  /** Every spawn point of a room of the map lies in the room's interior. */
  lemma SpawnAreaInRoom(room: Rect, idx: nat)
    requires InMap(room) && room.x1 <= room.x2 && room.y1 <= room.y2 && InSpawnArea(room, idx)
    ensures idx < WIDTH * HEIGHT && InRoom(room, idx)
  {
    var x, y :| room.x1 < x <= room.x1 + Abs(room.x2 - room.x1) &&
                room.y1 < y <= room.y1 + Abs(room.y2 - room.y1) && idx == GetIndexXY(x, y);
    SpawnPointDecodes(room, idx, x, y);
  }

  // ---------------------------------------------------------------------
  // Entities
  // ---------------------------------------------------------------------

  /** `create_entity`: the next free id. */
  method CreateEntity(w: World) returns (e: Entity)
    requires w.Valid()
    modifies w`next
    ensures w.Valid() && e == old(w.next) && w.next == e + 1
  {
    e := w.next;
    w.next := w.next + 1;
  }

  /** The Position, Renderable and Name every spawned entity carries. */
  method WithBody(e: Entity, x: int, y: int, glyph: char, order: int, name: string, w: World)
    requires w.Valid() && e < w.next
    modifies w`positions, w`renderables, w`names
    ensures w.Valid()
    ensures w.positions == old(w.positions)[e := Position(x, y)]
    ensures w.renderables == old(w.renderables)[e := Renderable(glyph, order)]
    ensures w.names == old(w.names)[e := name]
  {
    w.positions := w.positions[e := Position(x, y)];
    w.renderables := w.renderables[e := Renderable(glyph, order)];
    w.names := w.names[e := name];
  }

  /** The dirty, empty Viewshed and the CombatStats of a fighter. */
  method WithCombat(e: Entity, range: int, stats: CombatStats, w: World)
    requires w.Valid() && e < w.next
    modifies w`viewsheds, w`combatStats
    ensures w.Valid()
    ensures w.viewsheds == old(w.viewsheds)[e := Viewshed([], range, true)]
    ensures w.combatStats == old(w.combatStats)[e := stats]
  {
    w.viewsheds := w.viewsheds[e := Viewshed([], range, true)];
    w.combatStats := w.combatStats[e := stats];
  }

  /** `player`: the player entity with its fixed stat block. */
  method Player(x: int, y: int, w: World) returns (e: Entity)
    requires w.Valid()
    modifies w`next, w`positions, w`renderables, w`players, w`viewsheds, w`names, w`combatStats
    ensures w.Valid() && e == old(w.next) && w.next == e + 1
    ensures w.positions == old(w.positions)[e := Position(x, y)]
    ensures w.renderables == old(w.renderables)[e := Renderable('@', PLAYER_ORDER)]
    ensures w.players == old(w.players) + {e}
    ensures w.viewsheds == old(w.viewsheds)[e := Viewshed([], VISIBLE_TILES_RANGE, true)]
    ensures w.names == old(w.names)[e := "Player"]
    ensures w.combatStats == old(w.combatStats)[e := CombatStats(30, 30, 2, 5)]
  {
    e := CreateEntity(w);
    WithBody(e, x, y, '@', PLAYER_ORDER, "Player", w);
    w.players := w.players + {e};
    WithCombat(e, VISIBLE_TILES_RANGE, CombatStats(30, 30, 2, 5), w);
  }

  /** `monster`: a monster with the given glyph and name and the shared
      monster stat block; it blocks its tile. */
  method Monster(x: int, y: int, glyph: char, name: string, w: World)
    requires w.Valid()
    modifies w`next, w`positions, w`renderables, w`viewsheds, w`monsters, w`names, w`blocksTile, w`combatStats
    ensures w.Valid() && w.next == old(w.next) + 1
    ensures var e := old(w.next);
      && w.positions == old(w.positions)[e := Position(x, y)]
      && w.renderables == old(w.renderables)[e := Renderable(glyph, MONSTER_ORDER)]
      && w.viewsheds == old(w.viewsheds)[e := Viewshed([], 8, true)]
      && w.monsters == old(w.monsters) + {e}
      && w.names == old(w.names)[e := name]
      && w.blocksTile == old(w.blocksTile) + {e}
      && w.combatStats == old(w.combatStats)[e := CombatStats(16, 16, 1, 4)]
  {
    var e := CreateEntity(w);
    WithBody(e, x, y, glyph, MONSTER_ORDER, name, w);
    WithCombat(e, 8, CombatStats(16, 16, 1, 4), w);
    WithMonsterMarkers(e, w);
  }

  /** The Monster and BlocksTile markers. */
  method WithMonsterMarkers(e: Entity, w: World)
    requires w.Valid() && e < w.next
    modifies w`monsters, w`blocksTile
    ensures w.Valid() && w.monsters == old(w.monsters) + {e} && w.blocksTile == old(w.blocksTile) + {e}
  {
    w.monsters := w.monsters + {e};
    w.blocksTile := w.blocksTile + {e};
  }

  method Orc(x: int, y: int, w: World)
    requires w.Valid()
    modifies w`next, w`positions, w`renderables, w`viewsheds, w`monsters, w`names, w`blocksTile, w`combatStats
    ensures w.Valid() && w.next == old(w.next) + 1
    ensures var e := old(w.next);
      && w.positions == old(w.positions)[e := Position(x, y)]
      && w.renderables == old(w.renderables)[e := Renderable('o', MONSTER_ORDER)]
      && w.viewsheds == old(w.viewsheds)[e := Viewshed([], 8, true)]
      && w.monsters == old(w.monsters) + {e}
      && w.names == old(w.names)[e := "Orc"]
      && w.blocksTile == old(w.blocksTile) + {e}
      && w.combatStats == old(w.combatStats)[e := CombatStats(16, 16, 1, 4)]
  {
    Monster(x, y, 'o', "Orc", w);
  }

  method Goblin(x: int, y: int, w: World)
    requires w.Valid()
    modifies w`next, w`positions, w`renderables, w`viewsheds, w`monsters, w`names, w`blocksTile, w`combatStats
    ensures w.Valid() && w.next == old(w.next) + 1
    ensures var e := old(w.next);
      && w.positions == old(w.positions)[e := Position(x, y)]
      && w.renderables == old(w.renderables)[e := Renderable('g', MONSTER_ORDER)]
      && w.viewsheds == old(w.viewsheds)[e := Viewshed([], 8, true)]
      && w.monsters == old(w.monsters) + {e}
      && w.names == old(w.names)[e := "Goblin"]
      && w.blocksTile == old(w.blocksTile) + {e}
      && w.combatStats == old(w.combatStats)[e := CombatStats(16, 16, 1, 4)]
  {
    Monster(x, y, 'g', "Goblin", w);
  }

  /** `random_monster`: an Orc on a roll of 1, a Goblin on any other roll. */
  method RandomMonster(roll: int, x: int, y: int, w: World)
    requires w.Valid()
    modifies w`next, w`positions, w`renderables, w`viewsheds, w`monsters, w`names, w`blocksTile, w`combatStats
    ensures w.Valid() && w.next == old(w.next) + 1
    ensures var e := old(w.next);
      && w.positions == old(w.positions)[e := Position(x, y)]
      && w.renderables == old(w.renderables)[e := Renderable(MonsterGlyph(roll), MONSTER_ORDER)]
      && w.viewsheds == old(w.viewsheds)[e := Viewshed([], 8, true)]
      && w.monsters == old(w.monsters) + {e}
      && w.names == old(w.names)[e := MonsterName(roll)]
      && w.blocksTile == old(w.blocksTile) + {e}
      && w.combatStats == old(w.combatStats)[e := CombatStats(16, 16, 1, 4)]
  {
    if roll == 1 {
      Orc(x, y, w);
    } else {
      Goblin(x, y, w);
    }
  }

  /** `health_potion`: an item that heals 8 and does not block its tile. */
  method HealthPotion(x: int, y: int, w: World)
    requires w.Valid()
    modifies w`next, w`positions, w`renderables, w`names, w`items, w`potions
    ensures w.Valid() && w.next == old(w.next) + 1
    ensures var e := old(w.next);
      && w.positions == old(w.positions)[e := Position(x, y)]
      && w.renderables == old(w.renderables)[e := Renderable('i', ITEM_ORDER)]
      && w.names == old(w.names)[e := "Health Potion"]
      && w.items == old(w.items) + {e}
      && w.potions == old(w.potions)[e := Potion(8)]
  {
    var e := CreateEntity(w);
    WithBody(e, x, y, 'i', ITEM_ORDER, "Health Potion", w);
    w.items := w.items + {e};
    w.potions := w.potions[e := Potion(8)];
  }

  /** `v as i32`: the low 32 bits of `v`, read as two's complement. */
  function AsI32(v: int): (r: int)
    ensures -0x8000_0000 <= r < 0x8000_0000
    ensures -0x8000_0000 <= v < 0x8000_0000 ==> r == v
  {
    (v + 0x8000_0000) % 0x1_0000_0000 - 0x8000_0000
  }

  /** The row `idx / MAP_WIDTH` of a spawn point fits an i32. */
  predicate RowFits(idx: nat) {
    idx / MAP_WIDTH < 0x8000_0000
  }

  /** The cell a spawn point names, as `spawn_room` decodes it:
      `(idx % MAP_WIDTH) as i32` and `(idx / MAP_WIDTH) as i32`. */
  function Decode(idx: nat): (p: Position)
    ensures 0 <= p.x < MAP_WIDTH
  {
    Position(AsI32(idx % MAP_WIDTH), AsI32(idx / MAP_WIDTH))
  }

  /** When the row fits an i32, decoding recovers the point exactly;
      otherwise the cast truncates the row. */
  lemma DecodeExact(idx: nat)
    ensures RowFits(idx) ==> Decode(idx).y * MAP_WIDTH + Decode(idx).x == idx
    ensures !RowFits(idx) ==> Decode(idx).y != idx / MAP_WIDTH
  {
  }

  /** Distinct spawn points whose rows fit an i32 decode to distinct cells. */
  lemma DecodeInjective(a: nat, b: nat)
    requires RowFits(a) && RowFits(b) && Decode(a) == Decode(b)
    ensures a == b
  {
    DecodeExact(a);
    DecodeExact(b);
  }

  /** The cell named by a spawn point of the room lies in its interior. */
  lemma DecodeInRoom(room: Rect, idx: nat)
    requires InMap(room) && room.x1 <= room.x2 && room.y1 <= room.y2 && InSpawnArea(room, idx)
    ensures InRoom(room, GetIndexXY(Decode(idx).x, Decode(idx).y))
  {
    SpawnAreaInRoom(room, idx);
    IndexOfCell(idx % MAP_WIDTH, idx / MAP_WIDTH);
  }

  /** The glyph and the name `random_monster` gives for a roll. */
  function MonsterGlyph(roll: int): char { if roll == 1 then 'o' else 'g' }
  function MonsterName(roll: int): string { if roll == 1 then "Orc" else "Goblin" }

  /** The entities `lo..hi` stand inside the room's interior. */
  ghost predicate StandIn(positions: map<Entity, Position>, room: Rect, lo: nat, hi: nat) {
    forall e :: lo <= e < hi ==> e in positions && InRoom(room, GetIndexXY(positions[e].x, positions[e].y))
  }

  // ---------------------------------------------------------------------
  // Specification of `spawn_room`
  // ---------------------------------------------------------------------

  /** The storages spawning writes to. */
  datatype Stores = Stores(positions: map<Entity, Position>, renderables: map<Entity, Renderable>,
                           names: map<Entity, string>, viewsheds: map<Entity, Viewshed>,
                           combatStats: map<Entity, CombatStats>, potions: map<Entity, Potion>,
                           monsters: set<Entity>, items: set<Entity>, blocksTile: set<Entity>)

  function StoresOf(w: World): Stores
    reads w`positions, w`renderables, w`names, w`viewsheds, w`combatStats, w`potions, w`monsters, w`items, w`blocksTile
  {
    Stores(w.positions, w.renderables, w.names, w.viewsheds, w.combatStats, w.potions,
           w.monsters, w.items, w.blocksTile)
  }

  /** The storages after one `random_monster` at `pos` as entity `e`. */
  function AddMonster(s: Stores, e: Entity, pos: Position, roll: int): Stores {
    s.(positions := s.positions[e := pos],
       renderables := s.renderables[e := Renderable(MonsterGlyph(roll), MONSTER_ORDER)],
       names := s.names[e := MonsterName(roll)],
       viewsheds := s.viewsheds[e := Viewshed([], 8, true)],
       combatStats := s.combatStats[e := CombatStats(16, 16, 1, 4)],
       monsters := s.monsters + {e},
       blocksTile := s.blocksTile + {e})
  }

  /** The storages after one `health_potion` at `pos` as entity `e`. */
  function AddPotion(s: Stores, e: Entity, pos: Position): Stores {
    s.(positions := s.positions[e := pos],
       renderables := s.renderables[e := Renderable('i', ITEM_ORDER)],
       names := s.names[e := "Health Potion"],
       potions := s.potions[e := Potion(8)],
       items := s.items + {e})
  }

  /** The storages after a monster was spawned, as entity `start + j`, on
      each point `j`, its kind chosen by roll `j`: the monster loop of
      `spawn_room`, point by point. */
  function Monsters(s: Stores, start: nat, points: seq<nat>, rolls: seq<int>): Stores
    requires |points| <= |rolls|
    decreases |points|
  {
    if points == [] then s
    else
      var j := |points| - 1;
      AddMonster(Monsters(s, start, points[..j], rolls), start + j, Decode(points[j]), rolls[j])
  }

  /** The storages after a health potion was spawned, as entity
      `start + j`, on each point `j`. */
  function Potions(s: Stores, start: nat, points: seq<nat>): Stores
    decreases |points|
  {
    if points == [] then s
    else
      var j := |points| - 1;
      AddPotion(Potions(s, start, points[..j]), start + j, Decode(points[j]))
  }

  /** One more point is one more `random_monster`. */
  lemma MonstersSnoc(s: Stores, start: nat, points: seq<nat>, rolls: seq<int>, j: nat)
    requires j < |points| <= |rolls|
    ensures Monsters(s, start, points[..j + 1], rolls) ==
            AddMonster(Monsters(s, start, points[..j], rolls), start + j, Decode(points[j]), rolls[j])
  {
    assert points[..j + 1][..j] == points[..j];
  }

  /** One more point is one more `health_potion`. */
  lemma PotionsSnoc(s: Stores, start: nat, points: seq<nat>, j: nat)
    requires j < |points|
    ensures Potions(s, start, points[..j + 1]) == AddPotion(Potions(s, start, points[..j]), start + j, Decode(points[j]))
  {
    assert points[..j + 1][..j] == points[..j];
  }

  /** Monster `e`, spawned on point `e - start`, stands on the cell of that
      point, is an Orc exactly when its roll is 1 and a Goblin otherwise, and
      has the monster stat block, a dirty empty Viewshed of range 8 and the
      Monster and BlocksTile markers. */
  lemma {:induction false} MonsterSpawned(s: Stores, start: nat, points: seq<nat>, rolls: seq<int>, e: Entity)
    requires |points| <= |rolls| && start <= e < start + |points|
    ensures var r := Monsters(s, start, points, rolls);
      && e in r.positions && r.positions[e] == Decode(points[e - start])
      && e in r.names && r.names[e] == (if rolls[e - start] == 1 then "Orc" else "Goblin")
      && e in r.renderables
      && r.renderables[e] == Renderable(if rolls[e - start] == 1 then 'o' else 'g', MONSTER_ORDER)
      && e in r.combatStats && r.combatStats[e] == CombatStats(16, 16, 1, 4)
      && e in r.viewsheds && r.viewsheds[e] == Viewshed([], 8, true)
      && e in r.monsters && e in r.blocksTile
  {
    var n := |points| - 1;
    if e < start + n {
      MonsterSpawned(s, start, points[..n], rolls, e);
    }
  }

  /** The monster loop leaves every other entity with all of its
      components, and makes nothing a potion or an item. */
  lemma {:induction false} MonstersKeep(s: Stores, start: nat, points: seq<nat>, rolls: seq<int>, e: Entity)
    requires |points| <= |rolls| && !(start <= e < start + |points|)
    ensures var r := Monsters(s, start, points, rolls);
      && (e in r.positions <==> e in s.positions) && (e in s.positions ==> r.positions[e] == s.positions[e])
      && (e in r.names <==> e in s.names) && (e in s.names ==> r.names[e] == s.names[e])
      && (e in r.renderables <==> e in s.renderables) && (e in s.renderables ==> r.renderables[e] == s.renderables[e])
      && (e in r.combatStats <==> e in s.combatStats) && (e in s.combatStats ==> r.combatStats[e] == s.combatStats[e])
      && (e in r.viewsheds <==> e in s.viewsheds) && (e in s.viewsheds ==> r.viewsheds[e] == s.viewsheds[e])
      && (e in r.monsters <==> e in s.monsters) && (e in r.blocksTile <==> e in s.blocksTile)
      && r.potions == s.potions && r.items == s.items
  {
    if points != [] {
      MonstersKeep(s, start, points[..|points| - 1], rolls, e);
    }
  }


  /** Potion `e`, spawned on point `e - start`, stands on the cell of that
      point, is drawn as 'i', is named "Health Potion", heals 8 and is an
      Item. */
  lemma {:induction false} PotionSpawned(s: Stores, start: nat, points: seq<nat>, e: Entity)
    requires start <= e < start + |points|
    ensures var r := Potions(s, start, points);
      && e in r.positions && r.positions[e] == Decode(points[e - start])
      && e in r.names && r.names[e] == "Health Potion"
      && e in r.renderables && r.renderables[e] == Renderable('i', ITEM_ORDER)
      && e in r.potions && r.potions[e] == Potion(8)
      && e in r.items
  {
    var n := |points| - 1;
    if e < start + n {
      PotionSpawned(s, start, points[..n], e);
    }
  }

  /** The potion loop leaves every other entity with all of its components,
      and adds no fighter, viewer or blocker. */
  lemma {:induction false} PotionsKeep(s: Stores, start: nat, points: seq<nat>, e: Entity)
    requires !(start <= e < start + |points|)
    ensures var r := Potions(s, start, points);
      && (e in r.positions <==> e in s.positions) && (e in s.positions ==> r.positions[e] == s.positions[e])
      && (e in r.names <==> e in s.names) && (e in s.names ==> r.names[e] == s.names[e])
      && (e in r.renderables <==> e in s.renderables) && (e in s.renderables ==> r.renderables[e] == s.renderables[e])
      && (e in r.potions <==> e in s.potions) && (e in s.potions ==> r.potions[e] == s.potions[e])
      && (e in r.items <==> e in s.items)
      && r.viewsheds == s.viewsheds && r.combatStats == s.combatStats
      && r.monsters == s.monsters && r.blocksTile == s.blocksTile
  {
    if points != [] {
      PotionsKeep(s, start, points[..|points| - 1], e);
    }
  }


  // ---------------------------------------------------------------------
  // `spawn_room`
  // ---------------------------------------------------------------------

  /** The monster loop of `spawn_room`. */
  method SpawnMonsters(room: Rect, points: seq<nat>, rolls: seq<int>, w: World)
    requires w.Valid() && |rolls| >= |points|
    modifies w`next, w`positions, w`renderables, w`viewsheds, w`monsters, w`names, w`blocksTile, w`combatStats
    ensures w.Valid() && w.next == old(w.next) + |points|
    ensures StoresOf(w) == Monsters(old(StoresOf(w)), old(w.next), points, rolls)
  {
    ghost var start, s := w.next, StoresOf(w);
    for j := 0 to |points|
      invariant w.Valid() && w.next == start + j
      invariant StoresOf(w) == Monsters(s, start, points[..j], rolls)
    {
      var pos := Decode(points[j]);
      RandomMonster(rolls[j], pos.x, pos.y, w);
      MonstersSnoc(s, start, points, rolls, j);
    }
    assert points[..|points|] == points;
  }

  /** The potion loop of `spawn_room`. */
  method SpawnItems(room: Rect, points: seq<nat>, w: World)
    requires w.Valid()
    modifies w`next, w`positions, w`renderables, w`names, w`items, w`potions
    ensures w.Valid() && w.next == old(w.next) + |points|
    ensures StoresOf(w) == Potions(old(StoresOf(w)), old(w.next), points)
  {
    ghost var start, s := w.next, StoresOf(w);
    for j := 0 to |points|
      invariant w.Valid() && w.next == start + j
      invariant StoresOf(w) == Potions(s, start, points[..j])
    {
      var pos := Decode(points[j]);
      HealthPotion(pos.x, pos.y, w);
      PotionsSnoc(s, start, points, j);
    }
    assert points[..|points|] == points;
  }

  /** `spawn_room`: the monster points are drawn first, then the item
      points; a monster is spawned at every monster point, using the
      monster rolls in order, then a potion at every item point. When the
      picks run out the result is false and nothing is spawned. The drawn
      points are returned as ghost results to name them in the contract. */
  method SpawnRoom(room: Rect, monsterRoll: int, monsterPicks: seq<(int, int)>, itemRoll: int,
                   itemPicks: seq<(int, int)>, monsterRolls: seq<int>, w: World)
      returns (ok: bool, ghost m: Option<seq<nat>>, ghost p: Option<seq<nat>>)
    requires w.Valid()
    requires 1 <= monsterRoll <= MAX_MONSTERS + 2 && ValidPicks(room, monsterPicks)
    requires 1 <= itemRoll <= MAX_ITEMS + 2 && ValidPicks(room, itemPicks)
    requires |monsterRolls| >= MAX_MONSTERS - 1
    modifies w`next, w`positions, w`renderables, w`viewsheds, w`monsters, w`names, w`blocksTile, w`combatStats,
             w`items, w`potions
    ensures w.Valid()
    ensures m == SpawnPointsFrom([], Max(0, monsterRoll - 3), room, monsterPicks)
    ensures p == SpawnPointsFrom([], Max(0, itemRoll - 3), room, itemPicks)
    ensures ok == (m.Some? && p.Some?)
    ensures !ok ==> unchanged(w)
    ensures ok ==> w.next == old(w.next) + |m.value| + |p.value|
    ensures ok ==> |m.value| <= MAX_MONSTERS - 1 && |p.value| <= MAX_ITEMS - 1
    ensures ok ==> SpawnedFrom(StoresOf(w), old(StoresOf(w)), old(w.next), m.value, p.value, monsterRolls)
    ensures ok && InMap(room) && room.x1 <= room.x2 && room.y1 <= room.y2 ==>
      StandIn(w.positions, room, old(w.next), w.next)
  {
    ghost var s, start := StoresOf(w), w.next;
    var monsterSpawnPoints := BuildSpawnPointsByMaxAmount(room, MAX_MONSTERS, monsterRoll, monsterPicks);
    var itemSpawnPoints := BuildSpawnPointsByMaxAmount(room, MAX_ITEMS, itemRoll, itemPicks);
    m, p := monsterSpawnPoints, itemSpawnPoints;
    assert w.Valid() && StoresOf(w) == s && w.next == start;
    ok := SpawnDrawn(room, monsterSpawnPoints, itemSpawnPoints, monsterRolls, w, s, start);
  }

  /** The rest of `spawn_room` once both sets of points are drawn: nothing
      when either ran out of picks, otherwise both spawning loops. */
  method SpawnDrawn(room: Rect, monsterPoints: Option<seq<nat>>, itemPoints: Option<seq<nat>>, rolls: seq<int>,
                    w: World, ghost s: Stores, ghost start: nat) returns (ok: bool)
    requires w.Valid() && StoresOf(w) == s && w.next == start
    requires monsterPoints.Some? ==> |monsterPoints.value| <= MAX_MONSTERS - 1 <= |rolls|
    requires monsterPoints.Some? ==> forall k :: 0 <= k < |monsterPoints.value| ==> InSpawnArea(room, monsterPoints.value[k])
    requires itemPoints.Some? ==> |itemPoints.value| <= MAX_ITEMS - 1
    requires itemPoints.Some? ==> forall k :: 0 <= k < |itemPoints.value| ==> InSpawnArea(room, itemPoints.value[k])
    modifies w`next, w`positions, w`renderables, w`viewsheds, w`monsters, w`names, w`blocksTile, w`combatStats,
             w`items, w`potions
    ensures w.Valid()
    ensures ok == (monsterPoints.Some? && itemPoints.Some?)
    ensures !ok ==> unchanged(w)
    ensures ok ==> w.next == start + |monsterPoints.value| + |itemPoints.value|
    ensures ok ==> SpawnedFrom(StoresOf(w), s, start, monsterPoints.value, itemPoints.value, rolls)
    ensures ok && InMap(room) && room.x1 <= room.x2 && room.y1 <= room.y2 ==> StandIn(w.positions, room, start, w.next)
  {
    if monsterPoints.None? || itemPoints.None? {
      return false;
    }
    SpawnAll(room, monsterPoints.value, itemPoints.value, rolls, w, s, start);
    return true;
  }

  /** The storages spawning monsters on `monsterPoints` and then potions on
      `itemPoints` makes of `s`, from entity `start` on. */
  function Spawned(s: Stores, start: nat, monsterPoints: seq<nat>, itemPoints: seq<nat>, rolls: seq<int>): Stores
    requires |monsterPoints| <= |rolls|
  {
    Potions(Monsters(s, start, monsterPoints, rolls), start + |monsterPoints|, itemPoints)
  }

  /** The storages `r` are those `Spawned` from `s`. */
  predicate SpawnedFrom(r: Stores, s: Stores, start: nat, monsterPoints: seq<nat>, itemPoints: seq<nat>,
                        rolls: seq<int>)
    requires |monsterPoints| <= |rolls|
  {
    r == Spawned(s, start, monsterPoints, itemPoints, rolls)
  }

  /** The two spawning loops of `spawn_room`, monsters first, from a world
      whose storages are `s` and whose next id is `start`. */
  method SpawnAll(room: Rect, monsterPoints: seq<nat>, itemPoints: seq<nat>, rolls: seq<int>, w: World,
                  ghost s: Stores, ghost start: nat)
    requires w.Valid() && |monsterPoints| <= |rolls|
    requires StoresOf(w) == s && w.next == start
    requires forall k :: 0 <= k < |monsterPoints| ==> InSpawnArea(room, monsterPoints[k])
    requires forall k :: 0 <= k < |itemPoints| ==> InSpawnArea(room, itemPoints[k])
    modifies w`next, w`positions, w`renderables, w`viewsheds, w`monsters, w`names, w`blocksTile, w`combatStats,
             w`items, w`potions
    ensures w.Valid() && w.next == start + |monsterPoints| + |itemPoints|
    ensures SpawnedFrom(StoresOf(w), s, start, monsterPoints, itemPoints, rolls)
    ensures InMap(room) && room.x1 <= room.x2 && room.y1 <= room.y2 ==> StandIn(w.positions, room, start, w.next)
  {
    SpawnMonsters(room, monsterPoints, rolls, w);
    ghost var mid := StoresOf(w);
    SpawnItems(room, itemPoints, w);
    ThenPotions(StoresOf(w), mid, s, start, monsterPoints, itemPoints, rolls);
    if InMap(room) && room.x1 <= room.x2 && room.y1 <= room.y2 {
      SpawnedInRoom(s, start, room, monsterPoints, itemPoints, rolls);
    }
  }

  /** Chaining the two loops: potions spawned over the monster loop's result. */
  lemma ThenPotions(r: Stores, mid: Stores, s: Stores, start: nat, monsterPoints: seq<nat>, itemPoints: seq<nat>,
                    rolls: seq<int>)
    requires |monsterPoints| <= |rolls|
    requires mid == Monsters(s, start, monsterPoints, rolls)
    requires r == Potions(mid, start + |monsterPoints|, itemPoints)
    ensures SpawnedFrom(r, s, start, monsterPoints, itemPoints, rolls)
  {
  }

  /** Every entity `spawn_room` creates stands inside the room. */
  lemma SpawnedInRoom(s: Stores, start: nat, room: Rect, monsterPoints: seq<nat>, itemPoints: seq<nat>,
                      rolls: seq<int>)
    requires InMap(room) && room.x1 <= room.x2 && room.y1 <= room.y2 && |monsterPoints| <= |rolls|
    requires forall k :: 0 <= k < |monsterPoints| ==> InSpawnArea(room, monsterPoints[k])
    requires forall k :: 0 <= k < |itemPoints| ==> InSpawnArea(room, itemPoints[k])
    ensures StandIn(Spawned(s, start, monsterPoints, itemPoints, rolls).positions,
                    room, start, start + |monsterPoints| + |itemPoints|)
  {
    var positions := Spawned(s, start, monsterPoints, itemPoints, rolls).positions;
    forall e | start <= e < start + |monsterPoints| + |itemPoints|
      ensures e in positions && InRoom(room, GetIndexXY(positions[e].x, positions[e].y))
    {
      SpawnedOneInRoom(s, start, room, monsterPoints, itemPoints, rolls, e);
    }
  }

  /** Monster `e` of those `spawn_room` creates keeps, once the potions are
      spawned, everything `random_monster` gave it: the cell of its spawn
      point, Orc or Goblin by its roll, the monster stat block, a dirty
      empty Viewshed of range 8 and the Monster and BlocksTile markers. */
  lemma MonsterStands(s: Stores, start: nat, monsterPoints: seq<nat>, itemPoints: seq<nat>, rolls: seq<int>, e: Entity)
    requires |monsterPoints| <= |rolls| && start <= e < start + |monsterPoints|
    ensures var r := Spawned(s, start, monsterPoints, itemPoints, rolls);
      && e in r.positions && r.positions[e] == Decode(monsterPoints[e - start])
      && e in r.names && r.names[e] == (if rolls[e - start] == 1 then "Orc" else "Goblin")
      && e in r.renderables
      && r.renderables[e] == Renderable(if rolls[e - start] == 1 then 'o' else 'g', MONSTER_ORDER)
      && e in r.combatStats && r.combatStats[e] == CombatStats(16, 16, 1, 4)
      && e in r.viewsheds && r.viewsheds[e] == Viewshed([], 8, true)
      && e in r.monsters && e in r.blocksTile
  {
    var m := Monsters(s, start, monsterPoints, rolls);
    MonsterSpawned(s, start, monsterPoints, rolls, e);
    assert e in m.positions && e in m.names && e in m.renderables;
    PotionsKeep(m, start + |monsterPoints|, itemPoints, e);
    var r := Potions(m, start + |monsterPoints|, itemPoints);
    assert e in r.positions && e in r.names && e in r.renderables;
  }

  /** Potion `e` of those `spawn_room` creates stands on the cell of its
      spawn point and has everything `health_potion` gave it. */
  lemma PotionStands(s: Stores, start: nat, monsterPoints: seq<nat>, itemPoints: seq<nat>, rolls: seq<int>, e: Entity)
    requires |monsterPoints| <= |rolls| && start + |monsterPoints| <= e < start + |monsterPoints| + |itemPoints|
    ensures var r := Spawned(s, start, monsterPoints, itemPoints, rolls);
      && e in r.positions && r.positions[e] == Decode(itemPoints[e - (start + |monsterPoints|)])
      && e in r.names && r.names[e] == "Health Potion"
      && e in r.renderables && r.renderables[e] == Renderable('i', ITEM_ORDER)
      && e in r.potions && r.potions[e] == Potion(8)
      && e in r.items
  {
    var m := Monsters(s, start, monsterPoints, rolls);
    PotionSpawned(m, start + |monsterPoints|, itemPoints, e);
    assert e in Potions(m, start + |monsterPoints|, itemPoints).positions;
  }

  /** `spawn_room` leaves every entity it does not create with exactly the
      components it had. */
  lemma SpawnedKeeps(s: Stores, start: nat, monsterPoints: seq<nat>, itemPoints: seq<nat>, rolls: seq<int>, e: Entity)
    requires |monsterPoints| <= |rolls| && !(start <= e < start + |monsterPoints| + |itemPoints|)
    ensures var r := Spawned(s, start, monsterPoints, itemPoints, rolls);
      && (e in r.positions <==> e in s.positions) && (e in s.positions ==> r.positions[e] == s.positions[e])
      && (e in r.names <==> e in s.names) && (e in s.names ==> r.names[e] == s.names[e])
      && (e in r.renderables <==> e in s.renderables) && (e in s.renderables ==> r.renderables[e] == s.renderables[e])
      && (e in r.combatStats <==> e in s.combatStats) && (e in s.combatStats ==> r.combatStats[e] == s.combatStats[e])
      && (e in r.viewsheds <==> e in s.viewsheds) && (e in s.viewsheds ==> r.viewsheds[e] == s.viewsheds[e])
      && (e in r.potions <==> e in s.potions) && (e in s.potions ==> r.potions[e] == s.potions[e])
      && (e in r.monsters <==> e in s.monsters) && (e in r.blocksTile <==> e in s.blocksTile)
      && (e in r.items <==> e in s.items)
  {
    var m := Monsters(s, start, monsterPoints, rolls);
    MonstersKeep(s, start, monsterPoints, rolls, e);
    PotionsKeep(m, start + |monsterPoints|, itemPoints, e);
  }

  /** Two monsters `spawn_room` creates never share a cell, nor do two
      potions: their spawn points were drawn distinct, and their rows fit an
      i32 so decoding them is exact. */
  lemma SpawnedApart(s: Stores, start: nat, monsterPoints: seq<nat>, itemPoints: seq<nat>, rolls: seq<int>,
                     e1: Entity, e2: Entity)
    requires |monsterPoints| <= |rolls| && Distinct(monsterPoints) && Distinct(itemPoints)
    requires forall k :: 0 <= k < |monsterPoints| ==> RowFits(monsterPoints[k])
    requires forall k :: 0 <= k < |itemPoints| ==> RowFits(itemPoints[k])
    requires start <= e1 < e2 < start + |monsterPoints| + |itemPoints|
    requires e2 < start + |monsterPoints| || start + |monsterPoints| <= e1
    ensures var r := Spawned(s, start, monsterPoints, itemPoints, rolls);
      e1 in r.positions && e2 in r.positions && r.positions[e1] != r.positions[e2]
  {
    if e2 < start + |monsterPoints| {
      MonsterStands(s, start, monsterPoints, itemPoints, rolls, e1);
      MonsterStands(s, start, monsterPoints, itemPoints, rolls, e2);
      if Decode(monsterPoints[e1 - start]) == Decode(monsterPoints[e2 - start]) {
        DecodeInjective(monsterPoints[e1 - start], monsterPoints[e2 - start]);
      }
    } else {
      var base := start + |monsterPoints|;
      PotionStands(s, start, monsterPoints, itemPoints, rolls, e1);
      PotionStands(s, start, monsterPoints, itemPoints, rolls, e2);
      if Decode(itemPoints[e1 - base]) == Decode(itemPoints[e2 - base]) {
        DecodeInjective(itemPoints[e1 - base], itemPoints[e2 - base]);
      }
    }
  }

  /** Entity `e` of those `spawn_room` creates stands inside the room. */
  lemma SpawnedOneInRoom(s: Stores, start: nat, room: Rect, monsterPoints: seq<nat>, itemPoints: seq<nat>,
                         rolls: seq<int>, e: Entity)
    requires InMap(room) && room.x1 <= room.x2 && room.y1 <= room.y2 && |monsterPoints| <= |rolls|
    requires forall k :: 0 <= k < |monsterPoints| ==> InSpawnArea(room, monsterPoints[k])
    requires forall k :: 0 <= k < |itemPoints| ==> InSpawnArea(room, itemPoints[k])
    requires start <= e < start + |monsterPoints| + |itemPoints|
    ensures var r := Spawned(s, start, monsterPoints, itemPoints, rolls);
      e in r.positions && InRoom(room, GetIndexXY(r.positions[e].x, r.positions[e].y))
  {
    if e < start + |monsterPoints| {
      MonsterStands(s, start, monsterPoints, itemPoints, rolls, e);
      DecodeInRoom(room, monsterPoints[e - start]);
    } else {
      PotionStands(s, start, monsterPoints, itemPoints, rolls, e);
      DecodeInRoom(room, itemPoints[e - (start + |monsterPoints|)]);
    }
  }
}
