# Roguelike core in Dafny

A model of the simulation core of a small Rust roguelike built on rltk and
specs. It covers:

- the dungeon map (`src/map.rs`): tile indexing, room and corridor carving,
  room generation, the blocked and content indexes, and exits for path finding;
- the player's actions (`src/player.rs`): moving and attacking, picking up
  items, and turning keys into actions and turn states;
- the visibility system (`src/visibility_system.rs`);
- the melee combat system (`src/melee_combat_system.rs`);
- entity spawning (`src/spawner.rs`);
- the earlier stand-alone prototype in `src/main.rs`: map generation, arrow-key
  movement and the LeftWalker system;
- the constants of `src/constants.rs`.

The entity-component world becomes a `World` class. It has one field per
component storage: a map from entity id to the component record, or a set of
ids for marker components. A system's join visits the ids that carry all the
joined components in increasing order. The `Map` resource is a class whose
vectors are `seq` fields that the methods reassign.

Each imperative operation is a method with loops. It is proved against a
specification function of the old state: a recursion over entity ids or
over the room rolls. The properties of the system are proved as lemmas about
that function.

Randomness becomes supplied rolls within the dice ranges. rltk's
`range(a, b)` yields `a..b`, and `roll_dice(1, n)` yields `1..=n`. Three
things come from code that is not part of this model: the field of view, and
`Rect`'s `new`, `intersect` and `center`. They are passed in as function
parameters. No property is assumed of the field of view, `intersect` or
`center`. Of `Rect::new`, one property is assumed: on the dice ranges of
`new_rooms_and_corridors` it yields a room whose interior lies inside the
80 x 50 grid. `PlaceRooms` and `NewRoomsAndCorridors` require this as
`InMap(Candidate(roll, newRect))` for every roll.

`as usize` on an `i32` and `usize` arithmetic are modelled modulo 2^64. That
is sign extension and wrap-around, as in a release build on a 64-bit target.

Modules:

- `Constants` (constants.dfy)
- `MapGrid` (map.dfy)
- `Components` (components.dfy)
- `PlayerActions` (player.dfy)
- `Visibility` (visibility.dfy)
- `MeleeCombat` (melee.dfy)
- `Spawner` (spawner.dfy)
- `EarlyMain` (early_main.dfy)

Notes on the source's behaviour:

- The melee system joins attackers on Name as well as CombatStats and
  WantsToMelee. An attacker without a name is skipped.
- `try_move_player` returns from the whole call at the first player whose
  destination is outside the inner bounds. It does not skip only that player.
- `is_exit_valid` accepts column 79 and row 49 but not column 0 or row 0.

## Model

| member | source | states |
|---|---|---|
| MapGrid.GetIndexXY | src/map.rs:41-43 | the index is `y as usize * 80 + x as usize` in wrapping `usize` arithmetic, so it is below 2^64; for a cell of the 80 x 50 grid it is `y * 80 + x`, below 4000 |
| MapGrid.IndexDecodes | src/map.rs:41-43 | for `0 <= x < 80` and `y >= 0` without overflow, `% 80` and `/ 80` of the index recover x and y |
| MapGrid.IndexOfCell | src/map.rs:41-43 | a cell of the grid has an index inside the tile vector that decodes back to the cell |
| MapGrid.CarveRoom | src/map.rs:45-52 | carving a room keeps the length of the tile vector; what it carves is stated by RoomInteriorCarved |
| MapGrid.Map.constructor | src/map.rs:109-119 | a fresh map is all Wall, has no rooms, and its revealed, visible, blocked and content vectors are empty or false with 4000 entries |
| MapGrid.Map.ApplyRoomToMap | src/map.rs:45-52 | the new tiles are `CarveRoom` of the old ones: the room's interior becomes Floor and every other tile keeps its value |
| MapGrid.RoomInteriorCarved | src/map.rs:45-52 | every cell with `x1 < x <= x2`, `y1 < y <= y2` is Floor after carving |
| MapGrid.Map.ApplyHorizontalTunnel | src/map.rs:54-63 | the new tiles are the horizontal `Tunnel` from `min(x1, x2)` to `max(x1, x2)` on row y of the old tiles |
| MapGrid.Map.ApplyVerticalTunnel | src/map.rs:65-73 | the new tiles are the vertical `Tunnel` from `min(y1, y2)` to `max(y1, y2)` in column x of the old tiles |
| MapGrid.CarveTunnelCell | src/map.rs:57-61 | one guarded step keeps the length of the tile vector |
| MapGrid.TunnelRun | src/map.rs:56-62 | the cells of a run are carved in order and the vector keeps its length; what a run changes is stated by TunnelRunOnlyCarves and TunnelRunCarves |
| MapGrid.Tunnel | src/map.rs:54-73 | a tunnel between a and b runs from `min(a, b)` to `max(a, b)` and keeps the vector's length; its effect is stated by TunnelKeepsFloor and TunnelCarvesSegment |
| MapGrid.TunnelRunOnlyCarves | src/map.rs:54-73 | a tunnel changes a tile only to Floor, only at an index above 0, and only at a cell of the segment |
| MapGrid.TunnelRunCarves | src/map.rs:54-73 | every cell of the segment whose index is in `1..4000` becomes Floor |
| MapGrid.TunnelKeepsFloor | src/map.rs:54-73 | a tunnel never turns Floor into Wall, and tile 0 is never touched |
| MapGrid.TunnelCarvesSegment | src/map.rs:54-73 | after a tunnel, the whole segment is carved |
| MapGrid.SegmentCarvedKept | src/map.rs:81-94 | a carved segment stays carved under any change that keeps Floor |
| MapGrid.LinkedKept | src/map.rs:81-94 | an L-shaped link between two centres survives any change that keeps Floor |
| MapGrid.Join | src/map.rs:81-94 | joining keeps the length of the tile vector; its effect is stated by JoinLinks |
| MapGrid.Map.JoinRooms | src/map.rs:81-94 | the new tiles are `Join` of the old tiles, the current rooms, the new room and the coin |
| MapGrid.PlaceRoom | src/map.rs:129-139 | one pass of the loop keeps the length of the tile vector; its effect is stated by PlaceRoomInvariants |
| MapGrid.Generate | src/map.rs:123-140 | the room loop keeps the length of the tile vector; its effect is stated by GenerateInvariants and GenerateFromRock |
| MapGrid.JoinLinks | src/map.rs:81-94 | joining keeps every Floor tile; with no rooms it changes nothing; otherwise the last room's centre and the new room's centre are linked by an L-shaped corridor, in either order of the coin |
| MapGrid.Map.TryPlaceRoom | src/map.rs:129-139 | tiles and rooms become `PlaceRoom` of the old ones: a candidate that intersects an accepted room is dropped, otherwise it is carved, joined and appended |
| MapGrid.PlaceRoomInvariants | src/map.rs:129-139 | one pass keeps the rooms pairwise non-intersecting, carved and chain-linked, never walls a tile, and either keeps the rooms or appends the candidate |
| MapGrid.Map.PlaceRooms | src/map.rs:123-140 | tiles and rooms become `Generate` of the old layout over the room rolls |
| MapGrid.GenerateInvariants | src/map.rs:123-140 | the room loop keeps the rooms pairwise non-intersecting, carved and chain-linked, and never turns a Floor tile into Wall |
| MapGrid.Accepted | src/map.rs:123-140 | the rooms the loop accepts keep the earlier rooms and add at most one per roll |
| MapGrid.GenerateRooms | src/map.rs:123-140 | the rooms of the generated layout are exactly the accepted candidates: they depend on the rolls and the earlier rooms, not on the tiles |
| MapGrid.AcceptedAppends | src/map.rs:129-139 | the loop keeps the earlier rooms as a prefix and appends only candidates of the rolls |
| MapGrid.SolidRock | src/map.rs:111 | the initial tiles are 4000 Walls |
| MapGrid.GenerateFromRock | src/map.rs:108-143 | from solid rock, there are at most as many rooms as rolls; they are pairwise non-intersecting, carved, chain-linked, and each is a candidate of some roll |
| MapGrid.Map.NewRoomsAndCorridors | src/map.rs:108-143 | the new map holds the generated layout: at most MAX_ROOMS pairwise non-intersecting rooms, each carved, each linked to the previous one, each a candidate of a roll; the other vectors are all false or empty with 4000 entries |
| MapGrid.Map.IsExitValid | src/map.rs:75-79 | a cell is a valid exit exactly when `1 <= x <= 79`, `1 <= y <= 49` and it is not blocked; an accepted cell is inside the grid |
| MapGrid.Map.PopulateBlocked | src/map.rs:96-100 | afterwards `blocked[i]` holds exactly when `tiles[i]` is Wall, which is exactly when the tile is opaque; tiles are unchanged |
| MapGrid.Map.IsOpaque | src/map.rs:147-149 | a tile is opaque exactly when it is a Wall, that is, not Floor |
| MapGrid.Map.ClearContentIndex | src/map.rs:102-106 | every content list becomes empty and the vector keeps its length |
| MapGrid.Map.GetAvailableExits | src/map.rs:151-170 | at most 8 exits are returned |
| MapGrid.Map.ExitsAt | src/map.rs:157-167 | one check per offset tried, so at most one exit per offset |
| MapGrid.Neighbour | src/map.rs:153-167 | for an accepted neighbour, `index + dy*w + dx` equals the neighbour's grid index, is inside the grid, is adjacent to `index`, and is cardinal exactly when dx or dy is 0 |
| MapGrid.ExitIfExact | src/map.rs:158-167 | one push adds only open neighbours with their cost class, and adds the neighbour whenever it is open |
| MapGrid.ExitsAtSound | src/map.rs:157-167 | every exit pushed for a list of offsets is an open neighbour with the right cost class |
| MapGrid.ExitsAtComplete | src/map.rs:157-167 | every open neighbour at one of the offsets is pushed, with its cost class |
| MapGrid.AvailableExitsSound | src/map.rs:151-170 | every exit is one of the eight cells around the index, inside the accepted bounds, unblocked, and tagged Cardinal or Diagonal as its offset is |
| MapGrid.AvailableExitsComplete | src/map.rs:151-170 | every unblocked cell around the index inside the accepted bounds is among the exits, with its cost class |
| Components.World.constructor | src/spawner.rs:16-17 | the specs `World` the spawners create entities in, as the game starts it: over a valid map, every component storage empty, the game log empty, and no entity allocated, so the first `create_entity` gets id 0 |
| PlayerActions.Delta | src/player.rs:101-125 | every movement key yields one of the eight unit offsets around the player |
| PlayerActions.EveryDirectionHasKey | src/player.rs:101-125 | each of the eight offsets is produced by some key |
| PlayerActions.NextState | src/player.rs:96-136 | PlayerTurn exactly for a movement key or G; ShowInventory exactly for I; ShowDropItem exactly for X; AwaitingInput exactly for no key or any other key |
| PlayerActions.LastTargetSpec | src/player.rs:36-48 | no intent exactly when no occupant has CombatStats; otherwise the target is an occupant with stats after which no occupant has stats, so the last insert wins |
| PlayerActions.PlayerStep | src/player.rs:35-58 | inside the bounds and unblocked, the player's position becomes the destination, its viewshed turns dirty and the Point resource is the destination; blocked, position, viewshed and Point are unchanged; intents are only added for the player |
| PlayerActions.StepIntent | src/player.rs:36-48 | with no occupant that has stats, the intents are unchanged; otherwise the player's intent targets the last occupant with stats |
| PlayerActions.MoveFromIdle | src/player.rs:21-23 | with no player to join, moving changes nothing |
| PlayerActions.MoveSinglePlayer | src/player.rs:21-58 | for the single player, moving is `PlayerStep` to `(x + dx, y + dy)` when it is inside `1..=79 x 1..=49`, and changes nothing otherwise |
| PlayerActions.TryMovePlayer | src/player.rs:12-60 | positions, viewsheds, melee intents and the Point resource become `MoveFrom` of the old ones over all ids |
| PlayerActions.MovePlayerTo | src/player.rs:35-58 | the moved state is `PlayerStep` of the old one |
| PlayerActions.AddMeleeIntents | src/player.rs:36-48 | the intents gain the player's intent against the last occupant with stats, if any |
| PlayerActions.LastItemAtSpec | src/player.rs:69-75 | no target exactly when no item lies at the player's point; otherwise the target is an item at that point after which, in id order, none lies there |
| PlayerActions.GetItem | src/player.rs:62-94 | with no item here the log gains exactly "There is nothing here to pick up." and no intent is added; otherwise the log is unchanged and the player gets an intent to collect the last item here |
| PlayerActions.PlayerInput | src/player.rs:96-136 | the result is `NextState(key)`; a movement key runs the move with its offset; G runs the pick-up and moves nothing; any result other than PlayerTurn changes nothing |
| Visibility.Retain | src/visibility_system.rs:25-27 | a point is kept exactly when it was in the list and lies on the map; the list does not grow |
| Visibility.TileIndex | src/visibility_system.rs:36-37 | a point of the map has an index inside the 80 x 50 grids |
| Visibility.Mark | src/visibility_system.rs:35-39 | marking keeps the grid's length; which entries it sets is stated by MarkSpec |
| Visibility.MarkSpec | src/visibility_system.rs:35-39 | after marking, an entry is set exactly when it was set before or it is the index of a marked point |
| Visibility.Blank | src/visibility_system.rs:32-34 | the cleared grid has 4000 entries, all false |
| Visibility.Sight | src/visibility_system.rs:23-27 | the tiles kept for a viewshed all lie on the map |
| Visibility.Refresh | src/visibility_system.rs:20-39 | processing one entity keeps both grids at 4000 entries and keeps the set of entities with a viewshed; its effect is stated by ViewshedsAfter and PlayerGrids |
| Visibility.VisibilityFrom | src/visibility_system.rs:19-40 | the join over ids keeps both grids at 4000 entries and keeps the set of entities with a viewshed |
| Visibility.ClearVisible | src/visibility_system.rs:32-34 | every visible entry becomes false |
| Visibility.RevealTiles | src/visibility_system.rs:35-39 | both grids become the old grids with the entries of the points set |
| Visibility.RefreshViewshed | src/visibility_system.rs:20-40 | the state becomes `Refresh` of the old state for this entity |
| Visibility.Run | src/visibility_system.rs:16-43 | viewsheds and both grids become `VisibilityFrom` of the old ones over all ids |
| Visibility.ViewshedsAfter | src/visibility_system.rs:19-27 | a dirty viewshed of an entity with a position becomes clean and holds the on-map part of the field of view; every other viewshed is unchanged |
| Visibility.RevealedMonotone | src/visibility_system.rs:37 | a revealed tile stays revealed |
| Visibility.VisibleStaysRevealed | src/visibility_system.rs:37-38 | if every visible tile was revealed before, the same holds after |
| Visibility.NonPlayersKeepGrids | src/visibility_system.rs:30-31 | when only non-players are processed, both grids are unchanged |
| Visibility.PlayerGrids | src/visibility_system.rs:30-39 | with a single processed player, a tile is visible exactly when the player sees it, and it is revealed exactly when it was revealed before or the player sees it |
| MeleeCombat.Damage | src/melee_combat_system.rs:23 | the damage is never negative, is at least `power - defense`, and is either 0 or exactly `power - defense` |
| MeleeCombat.NewDamage | src/melee_combat_system.rs:29 | the victim's queue gains the amount at its end, created if absent; every other queue is unchanged |
| MeleeCombat.Blow | src/melee_combat_system.rs:17-30 | an entity queues damage exactly when it is joined, alive, its target is alive and its power exceeds the target's defense; the amount is then `power - defense > 0` for its target |
| MeleeCombat.MeleeFrom | src/melee_combat_system.rs:17-33 | only entities with CombatStats gain a damage queue |
| MeleeCombat.QueueAfter | src/melee_combat_system.rs:17-33 | each entity's queue afterwards is its old queue followed by the amounts dealt to it, in attacker order |
| MeleeCombat.ApplyQueue | src/melee_combat_system.rs:25-30 | one attacker's blow appends its amount to its target's queue and to no other |
| MeleeCombat.DamageToEntries | src/melee_combat_system.rs:18-29 | every queued amount is positive, the target is alive, and the amount is the damage of a living attacker whose intent targets it |
| MeleeCombat.DeadTargetSpared | src/melee_combat_system.rs:21 | a target with hp <= 0 gains no damage |
| MeleeCombat.DeadAttackerIdle | src/melee_combat_system.rs:18 | an attacker with hp <= 0 changes nothing: dropping its intent gives the same queues |
| MeleeCombat.SingleAttacker | src/melee_combat_system.rs:18-29 | a lone living attacker of a living target queues exactly `[max(0, power - defense)]` when that is positive, and nothing otherwise |
| MeleeCombat.NoAttackers | src/melee_combat_system.rs:17-33 | an entity no intent targets gains no damage |
| MeleeCombat.Strike | src/melee_combat_system.rs:18-31 | the queues gain this entity's blow, if any |
| MeleeCombat.Run | src/melee_combat_system.rs:14-36 | the queues become `MeleeFrom` of the old ones over all ids, the WantsToMelee storage ends empty, and CombatStats are not modified |
| Spawner.SpawnPointsSpec | src/spawner.rs:48-60 | when enough picks are given, the loop yields exactly `count` pairwise distinct cells, each `y * 80 + x` with `x1 < x <= x1 + abs(x2 - x1)` and `y1 < y <= y1 + abs(y2 - y1)` |
| Spawner.DrawSpawnPoint | src/spawner.rs:49-58 | the retry loop appends one new cell, or reports that the picks ran out |
| Spawner.SpawnPointsStep | src/spawner.rs:51-57 | one pick is either drawn again, when it names a held cell, or appended |
| Spawner.BuildSpawnPointsByMaxAmount | src/spawner.rs:43-61 | the count is `max(0, roll - 3)`, at most `max_amount - 1`; the points are pairwise distinct and lie in the spawn area |
| Spawner.SpawnPointDecodes | src/spawner.rs:51-53 | in a room of the map, `% MAP_WIDTH` and `/ MAP_WIDTH` of a point recover the cell it was built from, which lies in the room's interior |
| Spawner.SpawnAreaInRoom | src/spawner.rs:51-53 | every spawn point of a room of the map is an interior cell of that room |
| Spawner.CreateEntity | src/spawner.rs:17 | a new entity takes the next free id |
| Spawner.WithBody | src/spawner.rs:106-121 | the entity gets exactly the given Position, Renderable and Name |
| Spawner.WithCombat | src/spawner.rs:113-128 | the entity gets a dirty, empty Viewshed of the given range and the given CombatStats |
| Spawner.Player | src/spawner.rs:16-41 | the player has Position (x, y), glyph '@' at order 0, the Player marker, a dirty empty Viewshed of range VISIBLE_TILES_RANGE, the name "Player", and hp = max_hp = 30, defense 2, power 5 |
| Spawner.Monster | src/spawner.rs:104-130 | a monster has its Position, glyph and name, order 1, a dirty empty Viewshed of range 8, the Monster and BlocksTile markers, and hp = max_hp = 16, defense 1, power 4 |
| Spawner.WithMonsterMarkers | src/spawner.rs:118-122 | the entity gains the Monster and BlocksTile markers |
| Spawner.Orc | src/spawner.rs:96-98 | an orc is a monster with glyph 'o' and name "Orc" |
| Spawner.Goblin | src/spawner.rs:100-102 | a goblin is a monster with glyph 'g' and name "Goblin" |
| Spawner.RandomMonster | src/spawner.rs:84-94 | an Orc on a roll of 1, a Goblin on any other roll |
| Spawner.HealthPotion | src/spawner.rs:132-147 | a potion has its Position, glyph 'i' at order 2, the name "Health Potion", the Item marker and heal_amount 8, and no BlocksTile or CombatStats |
| Spawner.AsI32 | src/spawner.rs:72 | `as i32` yields an i32, and leaves a value that fits an i32 unchanged |
| Spawner.Decode | src/spawner.rs:70-72 | the cell a spawn point names, `(idx % 80) as i32` and `(idx / 80) as i32`; its column is in `0..80` |
| Spawner.DecodeExact | src/spawner.rs:70-72 | when the row `idx / 80` fits an i32 the cell recovers the point, `y * 80 + x == idx`; otherwise the cast truncates the row |
| Spawner.DecodeInjective | src/spawner.rs:53-55 | distinct spawn points whose rows fit an i32 name distinct cells |
| Spawner.DecodeInRoom | src/spawner.rs:51-53 | the cell a spawn point of a room of the map names lies in the room's interior |
| Spawner.MonstersSnoc | src/spawner.rs:69-73 | one more pass of the monster loop is one more `random_monster` at the next point, with the next id and the next roll |
| Spawner.PotionsSnoc | src/spawner.rs:76-80 | one more pass of the potion loop is one more `health_potion` at the next point, with the next id |
| Spawner.MonsterSpawned | src/spawner.rs:69-73 | after the monster loop, entity `start + j` stands on the cell of point j, is named "Orc" with glyph 'o' when roll j is 1 and "Goblin" with glyph 'g' otherwise, at order 1, has hp = max_hp = 16, defense 1, power 4, a dirty empty Viewshed of range 8, and the Monster and BlocksTile markers |
| Spawner.MonstersKeep | src/spawner.rs:69-73 | the monster loop leaves every other entity with exactly its components, and adds no potion or item |
| Spawner.PotionSpawned | src/spawner.rs:76-80 | after the potion loop, entity `start + j` stands on the cell of point j, is named "Health Potion" with glyph 'i' at order 2, heals 8 and is an Item |
| Spawner.PotionsKeep | src/spawner.rs:76-80 | the potion loop leaves every other entity with exactly its components, and adds no viewshed, stats, monster or blocker |
| Spawner.SpawnMonsters | src/spawner.rs:69-73 | the loop allocates one id per point, and the storages become `Monsters` of the old ones: one `random_monster` per point, in order, with consecutive new ids and the rolls in order |
| Spawner.SpawnItems | src/spawner.rs:76-80 | the loop allocates one id per point, and the storages become `Potions` of the old ones: one `health_potion` per point, in order, with consecutive new ids |
| Spawner.SpawnRoom | src/spawner.rs:64-81 | the monster points are those `build_spawn_points_by_max_amount` draws with the monster roll and picks, the item points likewise; when either draw runs out of picks the world is unchanged; otherwise at most 3 monsters and then at most 1 potion get consecutive new ids and the storages are `Spawned` from the old ones, whatever the room. When the room lies in the grid with `x1 <= x2` and `y1 <= y2`, every new entity stands in the room's interior |
| Spawner.SpawnDrawn | src/spawner.rs:68-80 | with either list of points missing the world is unchanged; otherwise both loops run and the storages are `Spawned` from the old ones; for a room in the grid with ordered corners, every new entity stands in the room |
| Spawner.SpawnAll | src/spawner.rs:68-80 | the monster loop and then the potion loop: one id per point, the storages are `Spawned` from the old ones; for a room in the grid with ordered corners, every new entity stands in the room |
| Spawner.ThenPotions | src/spawner.rs:68-80 | running the potion loop on the monster loop's result gives `Spawned` storages |
| Spawner.SpawnedInRoom | src/spawner.rs:64-81 | every entity `spawn_room` creates stands inside the room's interior |
| Spawner.MonsterStands | src/spawner.rs:69-73 | once the potions are spawned too, monster `start + j` still has everything `random_monster` gave it: the cell of point j, Orc or Goblin by roll j, the stat block, the Viewshed and both markers |
| Spawner.PotionStands | src/spawner.rs:76-80 | potion `start + |monsters| + j` stands on the cell of item point j, is named "Health Potion" with glyph 'i', heals 8 and is an Item |
| Spawner.SpawnedApart | src/spawner.rs:54-55 | two monsters `spawn_room` creates never stand on the same cell, nor do two potions, since each list of points is drawn pairwise distinct and, when their rows fit an i32 as on any room of the grid, decoding is exact |
| Spawner.SpawnedKeeps | src/spawner.rs:64-81 | every entity `spawn_room` does not create keeps exactly the components it had |
| Spawner.SpawnedOneInRoom | src/spawner.rs:64-81 | each created entity stands in the room's interior |
| EarlyMain.SplatCells | src/main.rs:71-74 | a cell is splatted exactly when some roll names it |
| EarlyMain.SplatCellsSnoc | src/main.rs:71-79 | one more roll adds exactly its cell to the splatted cells |
| EarlyMain.NewMap | src/main.rs:55-81 | the map has 80 x 50 tiles; a tile is Wall exactly when it is on the border, or splatted and not (40, 25); rows 0 and 49 and columns 0 and 79 are Wall; (40, 25) is Floor |
| EarlyMain.EarlyWorld.constructor | src/main.rs:193-204 | a prototype world over an 80 x 50 tile vector with no entities |
| EarlyMain.StepTo | src/main.rs:28-33 | on a Wall destination the position is unchanged; otherwise the new position is inside the screen and equals the destination when the destination is on screen |
| EarlyMain.InnerMove | src/main.rs:28-33 | on a walled-border map, a one-step move from an inner cell stays in range, and either stays or lands exactly `(dx, dy)` away on an inner cell |
| EarlyMain.TryMovePlayer | src/main.rs:22-35 | every player takes its `StepTo`; every other entity keeps its position |
| EarlyMain.ArrowDelta | src/main.rs:39-48 | an offset exactly for the four arrow keys |
| EarlyMain.ArrowsAgree | src/main.rs:42-45 | each arrow moves by the same offset as in the full game's key handling |
| EarlyMain.PlayerInput | src/main.rs:37-49 | an arrow moves every player by its offset; no key or any other key changes nothing |
| EarlyMain.WalkLeft | src/main.rs:180-183 | from a screen column, the new column is on screen and equals `(x - 1) mod 80`; from a positive column it is `x - 1` |
| EarlyMain.WalkLeftPeriod | src/main.rs:180-183 | n steps from a screen column give `(x - n) mod 80`, so 80 steps return to the start |
| EarlyMain.LeftWalkerRun | src/main.rs:179-185 | every LeftMover with a position walks one column left with wrap-around, keeping its row; every other entity keeps its position |

## Left out

- Rendering: `draw_map` in src/map.rs, and `draw_map`, `set_tile_wall`, `set_tile_floor` and `tick` in src/main.rs. These are presentation over the console. Glyph colours are not kept.
- `get_pathing_distance` in src/map.rs: it uses floating-point Pythagoras. The exit costs 1.0 and 1.45 are kept only as the tags Cardinal and Diagonal.
- `rltk::field_of_view`: a foreign library call. It is a parameter of the visibility system, whose result is an arbitrary sequence of points. The map's tiles, which it reads, do not change during the system.
- `Rect::new`, `Rect::intersect` and `Rect::center`: `Rect` is not part of this model. These are parameters. `intersect` and `center` have no properties assumed. `Rect::new` is assumed to give, on the dice ranges, a room whose interior lies inside the grid.
- `SufferDamage::new_damage` is not part of this model. It is modelled as appending the amount to the target's queue, creating the queue if absent.
- The random number generator is replaced by supplied rolls within the documented dice ranges. The interleaving of draws from the one generator is not modelled. For example, `spawn_room` draws the monster count, the monster picks, the item count, the item picks, and then one kind roll per monster, each from its own input.
- Spawner.BuildSpawnPointsByMaxAmount: the retry loop runs until it draws a fresh cell, and whether it terminates depends on the generator. Here the supplied picks bound it. When they run out, the result is None and `spawn_room` spawns nothing.
- Console and game-log text beyond the pick-up message. The melee system's log lines are not modelled.
- The specs machinery (storages, joins, `maintain`, `run_now`, dispatch) and the entry point `main()` with component registration.
- Panics: `unwrap`, `expect` and out-of-range indexing are not modelled as behaviour. Where the source would panic, the member requires the opposite. `MeleeCombat.Run` requires resolvable targets. `EarlyMain.TryMovePlayer` requires destination indices inside the vector.
- MapGrid.Map.ApplyRoomToMap requires the room's interior to lie inside the grid. The source only panics when a computed index reaches 4000 or more. A room that sticks out sideways would wrap into the next row without a panic. That case is not modelled.
- i32 overflow: coordinates, hp, power and defense are unbounded integers. An overflow of `pos.x + delta_x`, `power - defense` or `pos.x -= 1` at the `i32` limits is not modelled. The game's values are far from those limits. The `as i32` casts of a spawn point's cell in `spawn_room` are modelled, by `AsI32`.
- Debug-build panics on `usize` overflow are not modelled. Index arithmetic wraps as in a release build.
- Visibility.PlayerGrids and PlayerActions.MoveSinglePlayer are stated for a world with a single player, as the game spawns one. With several players, the grids hold the view of the last processed player. That is what `VisibilityFrom` and `MoveFrom` compute, but no lemma states it separately.
- PlayerActions.PlayerInput dispatches on the key's movement offset, `Delta`, and not on a match arm per key. `Delta` is defined by the same arms.
