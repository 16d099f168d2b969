/** The entity-component world the game systems run on. Every component
    storage is a map from entity id to the component record (markers are
    sets of ids), the resources are plain fields, and the dungeon map is the
    `Map` object of the MapGrid module. Entity ids are allocated upwards from
    0, so every id in use is below `next`; a join visits the ids that carry
    all the joined components in increasing order. */
module Components {
  import opened Constants
  import opened MapGrid

  datatype Option<T> = None | Some(value: T)

  datatype Position = Position(x: int, y: int)

  /** rltk's `Point`, used for the player-position resource and for the
      tiles of a viewshed. */
  datatype Point = Point(x: int, y: int)

  datatype Viewshed = Viewshed(visibleTiles: seq<Point>, range: int, dirty: bool)

  datatype CombatStats = CombatStats(maxHp: int, hp: int, defense: int, power: int)

  datatype WantsToMelee = WantsToMelee(target: Entity)

  datatype WantsToPickupItem = WantsToPickupItem(collectedBy: Entity, item: Entity)

  datatype Potion = Potion(healAmount: int)

  /** The glyph and draw order of an entity; its colours are presentation
      only and are not kept. */
  datatype Renderable = Renderable(glyph: char, renderOrder: int)

  /** The turn states `player_input` can return. */
  datatype RunState = AwaitingInput | PlayerTurn | ShowInventory | ShowDropItem

  /** The keys the input handlers distinguish; every other key is `Other`. */
  datatype Key =
    | Left | Right | Up | Down
    | Numpad1 | Numpad2 | Numpad3 | Numpad4 | Numpad6 | Numpad7 | Numpad8 | Numpad9
    | H | J | K | L | A | D | W | S | Y | U | N | B
    | G | I | X
    | Other

  class World {
    /** The `Map` resource. */
    const dungeon: Map
    /** The first entity id not yet allocated. */
    var next: nat

    var positions: map<Entity, Position>
    var renderables: map<Entity, Renderable>
    var viewsheds: map<Entity, Viewshed>
    var names: map<Entity, string>
    var combatStats: map<Entity, CombatStats>
    var potions: map<Entity, Potion>
    var wantsToMelee: map<Entity, WantsToMelee>
    var wantsToPickup: map<Entity, WantsToPickupItem>
    /** The SufferDamage storage: the damage amounts queued per entity. */
    var sufferDamage: map<Entity, seq<int>>
    var players: set<Entity>
    var monsters: set<Entity>
    var items: set<Entity>
    var blocksTile: set<Entity>

    /** The player-entity and player-position resources and the game log. */
    var playerEntity: Entity
    var playerPoint: Point
    var gameLog: seq<string>

    /** The map is well formed and every id in a storage has been
        allocated. */
    ghost predicate Valid()
      reads this, dungeon
    {
      dungeon.Valid() && Allocated()
    }

    /** Every id in a storage is below `next`. */
    ghost predicate Allocated()
      reads this
    {
      (forall e :: e in positions ==> e < next) &&
      (forall e :: e in renderables ==> e < next) &&
      (forall e :: e in viewsheds ==> e < next) &&
      (forall e :: e in names ==> e < next) &&
      (forall e :: e in combatStats ==> e < next) &&
      (forall e :: e in potions ==> e < next) &&
      (forall e :: e in wantsToMelee ==> e < next) &&
      (forall e :: e in wantsToPickup ==> e < next) &&
      (forall e :: e in sufferDamage ==> e < next) &&
      (forall e :: e in players ==> e < next) &&
      (forall e :: e in monsters ==> e < next) &&
      (forall e :: e in items ==> e < next) &&
      (forall e :: e in blocksTile ==> e < next)
    }

    /** An empty world over a map. */
    constructor (m: Map)
      requires m.Valid()
      ensures Valid() && dungeon == m && next == 0
      ensures positions == map[] && renderables == map[] && viewsheds == map[]
      ensures names == map[] && combatStats == map[] && potions == map[]
      ensures wantsToMelee == map[] && wantsToPickup == map[] && sufferDamage == map[]
      ensures players == {} && monsters == {} && items == {} && blocksTile == {}
      ensures gameLog == []
    {
      dungeon := m;
      next := 0;
      positions, renderables, viewsheds := map[], map[], map[];
      names, combatStats, potions := map[], map[], map[];
      wantsToMelee, wantsToPickup, sufferDamage := map[], map[], map[];
      players, monsters, items, blocksTile := {}, {}, {}, {};
      playerEntity := 0;
      playerPoint := Point(0, 0);
      gameLog := [];
    }
  }
}
