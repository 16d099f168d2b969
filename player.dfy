/** Player action resolution of src/player.rs: the bounds-checked move that
    also raises melee intents against the occupants of the destination, the
    item pick-up lookup, and the key dispatch of `player_input`. */
module PlayerActions {
  import opened Constants
  import opened MapGrid
  import opened Components

  // ---------------------------------------------------------------------
  // Keys
  // ---------------------------------------------------------------------

  /** The step a movement key asks for: arrows, numeric keypad, vi keys and
      WASD for the four cardinal directions, and Y, U, N, B (keypad 9, 7, 3,
      1) for the diagonals. Every step goes to one of the eight neighbours. */
  function Delta(k: Key): (d: Option<(int, int)>)
    ensures d.Some? ==> IsOffset(d.value)
  {
    match k
    case Left | Numpad4 | H | A => Some((-1, 0))
    case Right | Numpad6 | L | D => Some((1, 0))
    case Up | Numpad8 | K | W => Some((0, -1))
    case Down | Numpad2 | J | S => Some((0, 1))
    case Numpad9 | Y => Some((1, -1))
    case Numpad7 | U => Some((-1, -1))
    case Numpad3 | N => Some((1, 1))
    case Numpad1 | B => Some((-1, 1))
    case _ => None
  }

  /** The state `player_input` returns for a key (or for no key). */
  function NextState(key: Option<Key>): (r: RunState)
    ensures r == PlayerTurn <==> key.Some? && (Delta(key.value).Some? || key.value == G)
    ensures r == ShowInventory <==> key == Some(I)
    ensures r == ShowDropItem <==> key == Some(X)
    ensures r == AwaitingInput <==> key.None? || (Delta(key.value).None? && key.value !in {G, I, X})
  {
    match key
    case None => AwaitingInput
    case Some(k) =>
      if Delta(k).Some? || k == G then PlayerTurn
      else if k == I then ShowInventory
      else if k == X then ShowDropItem
      else AwaitingInput
  }

  /** Each of the eight directions has a key that asks for it. */
  lemma EveryDirectionHasKey(d: (int, int))
    requires IsOffset(d)
    ensures exists k :: Delta(k) == Some(d)
  {
    var (dx, dy) := d;
    if dy == 0 {
      if dx == -1 { assert Delta(Left) == Some(d); } else { assert Delta(Right) == Some(d); }
    } else if dx == 0 {
      if dy == -1 { assert Delta(Up) == Some(d); } else { assert Delta(Down) == Some(d); }
    } else if dy == -1 {
      if dx == 1 { assert Delta(Y) == Some(d); } else { assert Delta(U) == Some(d); }
    } else {
      if dx == 1 { assert Delta(N) == Some(d); } else { assert Delta(B) == Some(d); }
    }
  }

  // ---------------------------------------------------------------------
  // Specification of `try_move_player`
  // ---------------------------------------------------------------------

  /** The part of the world a move can change. */
  datatype MoveState = MoveState(positions: map<Entity, Position>, viewsheds: map<Entity, Viewshed>,
                                 wantsToMelee: map<Entity, WantsToMelee>, point: Point)

  /** The last occupant of a tile that has combat stats: inserting an
      intent per such occupant leaves this one in place. */
  function LastTarget(occupants: seq<Entity>, stats: map<Entity, CombatStats>): Option<Entity>
    decreases |occupants|
  {
    if occupants == [] then None
    else if occupants[|occupants| - 1] in stats then Some(occupants[|occupants| - 1])
    else LastTarget(occupants[..|occupants| - 1], stats)
  }

  /** The intents after the player `e` has (or has not) picked a target. */
  function WithIntent(intents: map<Entity, WantsToMelee>, e: Entity, target: Option<Entity>): map<Entity, WantsToMelee> {
    match target
    case None => intents
    case Some(t) => intents[e := WantsToMelee(t)]
  }

  /** `LastTarget` is absent exactly when no occupant has stats, and is
      otherwise an occupant with stats after which no occupant has any. */
  lemma {:induction false} LastTargetSpec(occupants: seq<Entity>, stats: map<Entity, CombatStats>)
    ensures LastTarget(occupants, stats).None? <==> forall i :: 0 <= i < |occupants| ==> occupants[i] !in stats
    ensures LastTarget(occupants, stats).Some? ==>
      exists i :: 0 <= i < |occupants| && occupants[i] == LastTarget(occupants, stats).value &&
        occupants[i] in stats && forall j :: i < j < |occupants| ==> occupants[j] !in stats
    decreases |occupants|
  {
    if occupants != [] {
      var front := occupants[..|occupants| - 1];
      LastTargetSpec(front, stats);
      if occupants[|occupants| - 1] !in stats {
        if LastTarget(front, stats).Some? {
          var i :| 0 <= i < |front| && front[i] == LastTarget(front, stats).value &&
            front[i] in stats && forall j :: i < j < |front| ==> front[j] !in stats;
          assert occupants[i] == front[i];
        }
        assert forall i :: 0 <= i < |front| ==> occupants[i] == front[i];
      }
    }
  }

  /** One player's move to the in-bounds destination (x, y): an intent
      against the last occupant with stats, then, unless the destination is
      blocked, the move itself. The clamp into the map never bites, so the
      player lands exactly on (x, y), its viewshed is dirty and the position
      resource follows it; a blocked destination leaves position, viewshed
      and resource alone. */
  function PlayerStep(s: MoveState, e: Entity, x: int, y: int, stats: map<Entity, CombatStats>,
                      blocked: seq<bool>, content: seq<seq<Entity>>): (r: MoveState)
    requires e in s.positions && e in s.viewsheds && InsideBorder(x, y)
    requires |blocked| == WIDTH * HEIGHT && |content| == WIDTH * HEIGHT
    ensures r.positions.Keys == s.positions.Keys && r.viewsheds.Keys == s.viewsheds.Keys
    ensures r.wantsToMelee.Keys <= s.wantsToMelee.Keys + {e}
    ensures !blocked[y * WIDTH + x] ==>
      && r.positions == s.positions[e := Position(x, y)]
      && r.viewsheds == s.viewsheds[e := s.viewsheds[e].(dirty := true)]
      && r.point == Point(x, y)
    ensures blocked[y * WIDTH + x] ==>
      r.positions == s.positions && r.viewsheds == s.viewsheds && r.point == s.point
  {
    var index := GetIndexXY(x, y);
    var intents := WithIntent(s.wantsToMelee, e, LastTarget(content[index], stats));
    if blocked[index] then s.(wantsToMelee := intents)
    else
      var p := Position(Min(COORDINATE_X, Max(0, x)), Min(COORDINATE_Y, Max(0, y)));
      MoveState(s.positions[e := p], s.viewsheds[e := s.viewsheds[e].(dirty := true)], intents, Point(p.x, p.y))
  }

  /** A player of the join: it has the Player marker, a position and a
      viewshed. */
  predicate Joined(s: MoveState, players: set<Entity>, e: Entity) {
    e in players && e in s.positions && e in s.viewsheds
  }

  /** The join loop of `try_move_player` from entity `k` on: each player
      moves in turn, and the first one whose destination is off the inner
      map ends the whole call. */
  function MoveFrom(s: MoveState, k: nat, n: nat, dx: int, dy: int, players: set<Entity>,
                    stats: map<Entity, CombatStats>, blocked: seq<bool>, content: seq<seq<Entity>>): MoveState
    requires |blocked| == WIDTH * HEIGHT && |content| == WIDTH * HEIGHT
    decreases n - k
  {
    if k >= n then s
    else if Joined(s, players, k) then
      var x, y := s.positions[k].x + dx, s.positions[k].y + dy;
      if !InsideBorder(x, y) then s
      else MoveFrom(PlayerStep(s, k, x, y, stats, blocked, content), k + 1, n, dx, dy, players, stats, blocked, content)
    else MoveFrom(s, k + 1, n, dx, dy, players, stats, blocked, content)
  }

  /** Without players left to visit the loop changes nothing. */
  lemma {:induction false} MoveFromIdle(s: MoveState, k: nat, n: nat, dx: int, dy: int, players: set<Entity>,
                                        stats: map<Entity, CombatStats>, blocked: seq<bool>, content: seq<seq<Entity>>)
    requires |blocked| == WIDTH * HEIGHT && |content| == WIDTH * HEIGHT
    requires forall j :: k <= j < n ==> !Joined(s, players, j)
    ensures MoveFrom(s, k, n, dx, dy, players, stats, blocked, content) == s
    decreases n - k
  {
    if k < n {
      MoveFromIdle(s, k + 1, n, dx, dy, players, stats, blocked, content);
    }
  }

  /** With a single player `e`, `try_move_player` is that player's step:
      nothing at all changes when the destination is off the inner map, and
      otherwise the outcome is `PlayerStep`. */
  lemma {:induction false} MoveSinglePlayer(s: MoveState, k: nat, n: nat, e: Entity, dx: int, dy: int, players: set<Entity>,
                                            stats: map<Entity, CombatStats>, blocked: seq<bool>, content: seq<seq<Entity>>)
    requires |blocked| == WIDTH * HEIGHT && |content| == WIDTH * HEIGHT
    requires k <= e < n && Joined(s, players, e)
    requires forall j :: k <= j < n && j != e ==> !Joined(s, players, j)
    ensures var x, y := s.positions[e].x + dx, s.positions[e].y + dy;
      MoveFrom(s, k, n, dx, dy, players, stats, blocked, content) ==
        if InsideBorder(x, y) then PlayerStep(s, e, x, y, stats, blocked, content) else s
    decreases n - k
  {
    if k < e {
      MoveSinglePlayer(s, k + 1, n, e, dx, dy, players, stats, blocked, content);
    } else {
      var x, y := s.positions[e].x + dx, s.positions[e].y + dy;
      if InsideBorder(x, y) {
        var s' := PlayerStep(s, e, x, y, stats, blocked, content);
        assert forall j :: Joined(s', players, j) <==> Joined(s, players, j);
        MoveFromIdle(s', e + 1, n, dx, dy, players, stats, blocked, content);
      }
    }
  }

  /** The intent a step leaves for the player: against the last occupant of
      the destination that has stats, or the old intents when none has. */
  lemma StepIntent(s: MoveState, e: Entity, x: int, y: int, stats: map<Entity, CombatStats>,
                   blocked: seq<bool>, content: seq<seq<Entity>>)
    requires e in s.positions && e in s.viewsheds && InsideBorder(x, y)
    requires |blocked| == WIDTH * HEIGHT && |content| == WIDTH * HEIGHT
    ensures var occupants := content[y * WIDTH + x];
      var r := PlayerStep(s, e, x, y, stats, blocked, content);
      && ((forall i :: 0 <= i < |occupants| ==> occupants[i] !in stats) ==> r.wantsToMelee == s.wantsToMelee)
      && (forall i :: (0 <= i < |occupants| && occupants[i] in stats &&
                       forall j :: i < j < |occupants| ==> occupants[j] !in stats) ==>
            r.wantsToMelee == s.wantsToMelee[e := WantsToMelee(occupants[i])])
  {
    var occupants := content[y * WIDTH + x];
    LastTargetSpec(occupants, stats);
    forall i | 0 <= i < |occupants| && occupants[i] in stats &&
            (forall j :: i < j < |occupants| ==> occupants[j] !in stats)
      ensures LastTarget(occupants, stats) == Some(occupants[i])
    {
      var i' :| 0 <= i' < |occupants| && occupants[i'] == LastTarget(occupants, stats).value &&
        occupants[i'] in stats && forall j :: i' < j < |occupants| ==> occupants[j] !in stats;
      assert i' == i;
    }
  }

  // ---------------------------------------------------------------------
  // Specification of `get_item`
  // ---------------------------------------------------------------------

  /** An item whose position is the player's. */
  predicate ItemAt(positions: map<Entity, Position>, items: set<Entity>, point: Point, e: Entity) {
    e in items && e in positions && positions[e].x == point.x && positions[e].y == point.y
  }

  /** The last item, in join order over the ids below `n`, lying at `point`. */
  function LastItemAt(positions: map<Entity, Position>, items: set<Entity>, point: Point, n: nat): Option<Entity>
    decreases n
  {
    if n == 0 then None
    else if ItemAt(positions, items, point, n - 1) then Some(n - 1)
    else LastItemAt(positions, items, point, n - 1)
  }

  /** `LastItemAt` is absent exactly when no item lies at the point, and is
      otherwise the item at the point with the highest id. */
  lemma {:induction false} LastItemAtSpec(positions: map<Entity, Position>, items: set<Entity>, point: Point, n: nat)
    ensures LastItemAt(positions, items, point, n).None? <==> forall e: nat :: e < n ==> !ItemAt(positions, items, point, e)
    ensures LastItemAt(positions, items, point, n).Some? ==>
      var i := LastItemAt(positions, items, point, n).value;
      i < n && ItemAt(positions, items, point, i) && forall e :: i < e < n ==> !ItemAt(positions, items, point, e)
    decreases n
  {
    if n > 0 {
      LastItemAtSpec(positions, items, point, n - 1);
    }
  }

  const NothingHere: string := "There is nothing here to pick up."

  /** The log and pick-up intents after `get_item`: with no item at the
      player's position the log gets `NothingHere`, otherwise the player
      gets an intent to collect that item. */
  function PickUp(log: seq<string>, pickups: map<Entity, WantsToPickupItem>, player: Entity,
                  target: Option<Entity>): (seq<string>, map<Entity, WantsToPickupItem>)
  {
    match target
    case None => (log + [NothingHere], pickups)
    case Some(item) => (log, pickups[player := WantsToPickupItem(player, item)])
  }

  // ---------------------------------------------------------------------
  // The actions
  // ---------------------------------------------------------------------

  function CurrentMove(w: World): MoveState
    reads w
  {
    MoveState(w.positions, w.viewsheds, w.wantsToMelee, w.playerPoint)
  }

  /** `try_move_player(delta_x, delta_y)`. */
  method TryMovePlayer(dx: int, dy: int, w: World)
    requires w.Valid()
    modifies w`positions, w`viewsheds, w`wantsToMelee, w`playerPoint
    ensures w.Valid()
    ensures CurrentMove(w) == MoveFrom(old(CurrentMove(w)), 0, w.next, dx, dy, w.players, w.combatStats,
                                       w.dungeon.blocked, w.dungeon.tileContent)
  {
    ghost var start := CurrentMove(w);
    var m := w.dungeon;
    var n := w.next;
    var entity := 0;
    while entity < n
      invariant entity <= n
      invariant w.Valid()
      invariant MoveFrom(CurrentMove(w), entity, n, dx, dy, w.players, w.combatStats, m.blocked, m.tileContent) ==
                MoveFrom(start, 0, n, dx, dy, w.players, w.combatStats, m.blocked, m.tileContent)
    {
      if entity in w.players && entity in w.positions && entity in w.viewsheds {
        var pos := w.positions[entity];
        var sumX, sumY := pos.x + dx, pos.y + dy;
        if sumX < 1 || sumX > m.width - 1 || sumY < 1 || sumY > m.height - 1 {
          return;
        }
        MovePlayerTo(entity, sumX, sumY, w);
      }
      entity := entity + 1;
    }
  }

  /** The body of the join loop for a player whose destination (x, y) is on
      the inner map. */
  method MovePlayerTo(entity: Entity, x: int, y: int, w: World)
    requires w.Valid() && entity < w.next && entity in w.positions && entity in w.viewsheds && InsideBorder(x, y)
    modifies w`positions, w`viewsheds, w`wantsToMelee, w`playerPoint
    ensures w.Valid()
    ensures CurrentMove(w) == PlayerStep(old(CurrentMove(w)), entity, x, y, w.combatStats,
                                         w.dungeon.blocked, w.dungeon.tileContent)
  {
    var m := w.dungeon;
    var destinationIndex := GetIndexXY(x, y);
    AddMeleeIntents(entity, m.tileContent[destinationIndex], w);
    if !m.blocked[destinationIndex] {
      var newPos := Position(Min(COORDINATE_X, Max(0, x)), Min(COORDINATE_Y, Max(0, y)));
      w.positions := w.positions[entity := newPos];
      w.viewsheds := w.viewsheds[entity := w.viewsheds[entity].(dirty := true)];
      w.playerPoint := Point(newPos.x, newPos.y);
    }
  }

  /** The loop over the occupants of the destination: an intent of
      `entity` against each occupant with stats, each replacing the last. */
  method AddMeleeIntents(entity: Entity, occupants: seq<Entity>, w: World)
    requires w.Valid() && entity < w.next
    modifies w`wantsToMelee
    ensures w.Valid()
    ensures w.wantsToMelee == WithIntent(old(w.wantsToMelee), entity, LastTarget(occupants, w.combatStats))
  {
    for i := 0 to |occupants|
      invariant w.Valid()
      invariant w.wantsToMelee == WithIntent(old(w.wantsToMelee), entity, LastTarget(occupants[..i], w.combatStats))
    {
      assert occupants[..i + 1][..i] == occupants[..i];
      var target := occupants[i];
      if target in w.combatStats {
        w.wantsToMelee := w.wantsToMelee[entity := WantsToMelee(target)];
      }
    }
    assert occupants[..|occupants|] == occupants;
  }

  /** `get_item`: the item picked is the last one at the player's position
      in join order; with none there, the log gets the one message. */
  method GetItem(w: World)
    requires w.Valid() && w.playerEntity < w.next
    modifies w`gameLog, w`wantsToPickup
    ensures w.Valid()
    ensures (w.gameLog, w.wantsToPickup) ==
      PickUp(old(w.gameLog), old(w.wantsToPickup), w.playerEntity, LastItemAt(w.positions, w.items, w.playerPoint, w.next))
  {
    var playerPos := w.playerPoint;
    var targetItem: Option<Entity> := None;
    for itemEntity := 0 to w.next
      invariant targetItem == LastItemAt(w.positions, w.items, playerPos, itemEntity)
    {
      if itemEntity in w.items && itemEntity in w.positions {
        var position := w.positions[itemEntity];
        if position.x == playerPos.x && position.y == playerPos.y {
          targetItem := Some(itemEntity);
        }
      }
    }
    match targetItem
    case None =>
      w.gameLog := w.gameLog + [NothingHere];
    case Some(item) =>
      w.wantsToPickup := w.wantsToPickup[w.playerEntity := WantsToPickupItem(w.playerEntity, item)];
  }

  /** `player_input`: a movement key moves the player by its `Delta`, G
      picks up, I and X open the inventory menus; the returned state is
      `NextState(key)`, and only the keys that yield PlayerTurn change the
      world. */
  method PlayerInput(key: Option<Key>, w: World) returns (r: RunState)
    requires w.Valid() && w.playerEntity < w.next
    modifies w`positions, w`viewsheds, w`wantsToMelee, w`playerPoint, w`gameLog, w`wantsToPickup
    ensures w.Valid()
    ensures r == NextState(key)
    ensures key.Some? && Delta(key.value).Some? ==>
      && CurrentMove(w) == MoveFrom(old(CurrentMove(w)), 0, w.next, Delta(key.value).value.0, Delta(key.value).value.1,
                                    w.players, w.combatStats, w.dungeon.blocked, w.dungeon.tileContent)
      && w.gameLog == old(w.gameLog) && w.wantsToPickup == old(w.wantsToPickup)
    ensures key == Some(G) ==> CurrentMove(w) == old(CurrentMove(w))
    ensures key == Some(G) ==>
      (w.gameLog, w.wantsToPickup) ==
      PickUp(old(w.gameLog), old(w.wantsToPickup), w.playerEntity, LastItemAt(w.positions, w.items, w.playerPoint, w.next))
    ensures r != PlayerTurn ==>
      CurrentMove(w) == old(CurrentMove(w)) && w.gameLog == old(w.gameLog) && w.wantsToPickup == old(w.wantsToPickup)
  {
    match key {
      case None => return AwaitingInput;
      case Some(k) =>
        var delta := Delta(k);
        if delta.Some? {
          TryMovePlayer(delta.value.0, delta.value.1, w);
        } else if k == G {
          GetItem(w);
        } else if k == I {
          return ShowInventory;
        } else if k == X {
          return ShowDropItem;
        } else {
          return AwaitingInput;
        }
    }
    r := PlayerTurn;
  }
}
