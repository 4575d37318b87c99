/** The creatures of the roguelike and the game that runs their turns:
    movement with bump attacks and locked doors, damage and death, the
    player's items, the enemies' chase logic, the message log, descending
    to the next floor and the dispatch of one player command
    (game.py:403-661, 772-1067, 1269-1274). */
module World {
  import opened Common
  import opened Dungeon
  import opened Rules

  /** Player and Enemy are the two subclasses of Entity in the source. */
  datatype Faction = PlayerFaction | EnemyFaction

  datatype AiState = Idle | Chasing | Attacking

  datatype GameState = MainMenu | Playing | GameOver | Victory | LevelTransition

  /** One decoded key press of the player's turn (game.py:995-1006). */
  datatype Command = MoveBy(dx: int, dy: int) | PickUp | Wait | SaveGame | UseSlot(index: int) | NoCommand

  /** Python truthiness of an optional list: present and not empty. */
  predicate Truthy<T>(p: Option<seq<T>>) {
    p.Some? && p.value != []
  }

  /** A path once its first cell is taken off: what is left, or nothing when
      that is empty (an empty list is dropped as falsy, game.py:648-649). */
  function Rest<T>(p: seq<T>): Option<seq<T>> {
    if |p| <= 1 then None else Some(p[1..])
  }

  /** Every field of an entity except its position and keys: what a move
      that only walks or unlocks keeps. */
  datatype EntityStats = EntityStats(name: string, maxHealth: int, health: int, attackPower: int, blocks: bool,
                         inventory: seq<Item>, currentWeapon: Option<Item>,
                         currentPath: Option<seq<Cell>>, state: AiState)

  /** What decides an enemy's turn, taken when the enemies' turn begins:
      whether it sees the player, where it stands, its attack power,
      whether the player is within its attack range, and whether a step
      straight at the player would strike it. */
  datatype Sight = Sight(sees: bool, at: Cell, power: int, inRange: bool, strikes: bool)

  /** An entity blocks (x, y) when it blocks, stands there and is alive. */
  predicate BlocksAt(e: Entity, x: int, y: int)
    reads e
  {
    e.blocks && e.x == x && e.y == y && e.health > 0
  }

  /** Nobody blocks (x, y). */
  predicate Free(entities: seq<Entity>, x: int, y: int)
    reads entities
  {
    forall j :: 0 <= j < |entities| ==> !BlocksAt(entities[j], x, y)
  }

  /** `get_blocking_entity_at` (game.py:1269-1274): the index of the first
      entity blocking (x, y), None when there is none. */
  function BlockingIndexAt(entities: seq<Entity>, x: int, y: int): (r: Option<nat>)
    reads entities
    ensures r.Some? ==> r.value < |entities| && BlocksAt(entities[r.value], x, y)
    ensures r.Some? ==> forall j :: 0 <= j < r.value ==> !BlocksAt(entities[j], x, y)
    ensures r.None? ==> forall j :: 0 <= j < |entities| ==> !BlocksAt(entities[j], x, y)
  {
    if entities == [] then None
    else if BlocksAt(entities[0], x, y) then Some(0)
    else match BlockingIndexAt(entities[1..], x, y)
      case None => None
      case Some(i) => Some(i + 1)
  }

  /** A dead entity, or one that has stopped blocking, is never found by
      `get_blocking_entity_at`. */
  lemma DeadNeverBlocks(entities: seq<Entity>, x: int, y: int, i: nat)
    requires i < |entities| && (entities[i].health <= 0 || !entities[i].blocks)
    ensures BlockingIndexAt(entities, x, y) != Some(i)
  {
  }

  /** Every field of an entity that can change, as one value. */
  datatype EntityState = EntityState(at: Cell, keys: int, stats: EntityStats)
  {
    /** The outcome of not seeing the player (game.py:624-626): idle, at
        `cell`, without a path. */
    predicate IdleAt(cell: Cell) {
      stats.state == Idle && stats.currentPath == None && at == cell
    }
  }

  class Entity {
    const faction: Faction
    var x: int
    var y: int
    var name: string
    var maxHealth: int
    var health: int
    var attackPower: int
    var blocks: bool
    // The Player's own fields (game.py:499-501).
    var inventory: seq<Item>
    var keys: int
    var currentWeapon: Option<Item>
    // The Enemy's own fields (game.py:594-597); the attack range is in tenths of a tile.
    const sightRadius: int
    const attackRangeTenths: int
    var currentPath: Option<seq<Cell>>
    var state: AiState

    /** `Player(x, y)` (game.py:495-501). */
    constructor Player(x: int, y: int)
      ensures faction == PlayerFaction && this.x == x && this.y == y && name == "Player"
      ensures maxHealth == PLAYER_START_HEALTH && health == PLAYER_START_HEALTH && attackPower == PLAYER_ATTACK
      ensures blocks && inventory == [] && keys == 0 && currentWeapon == None && currentPath == None
    {
      faction := PlayerFaction;
      this.x, this.y := x, y;
      name := "Player";
      maxHealth, health, attackPower, blocks := PLAYER_START_HEALTH, PLAYER_START_HEALTH, PLAYER_ATTACK, true;
      inventory, keys, currentWeapon := [], 0, None;
      sightRadius, attackRangeTenths := 0, 0;
      currentPath, state := None, Idle;
    }

    /** `Goblin(x, y)` (game.py:653-656). */
    constructor Goblin(x: int, y: int)
      ensures faction == EnemyFaction && this.x == x && this.y == y && name == "Goblin"
      ensures maxHealth == ENEMY_BASE_HEALTH && health == ENEMY_BASE_HEALTH && attackPower == ENEMY_BASE_ATTACK
      ensures blocks && sightRadius == ENEMY_SIGHT_RADIUS && attackRangeTenths == ENEMY_ATTACK_RANGE_TENTHS
      ensures currentPath == None && state == Idle && currentWeapon == None
    {
      faction := EnemyFaction;
      this.x, this.y := x, y;
      name := "Goblin";
      maxHealth, health, attackPower, blocks := ENEMY_BASE_HEALTH, ENEMY_BASE_HEALTH, ENEMY_BASE_ATTACK, true;
      inventory, keys, currentWeapon := [], 0, None;
      sightRadius, attackRangeTenths := ENEMY_SIGHT_RADIUS, ENEMY_ATTACK_RANGE_TENTHS;
      currentPath, state := None, Idle;
    }

    /** `Orc(x, y)` (game.py:658-661): tougher, stronger, shorter-sighted. */
    constructor Orc(x: int, y: int)
      ensures faction == EnemyFaction && this.x == x && this.y == y && name == "Orc"
      ensures maxHealth == ENEMY_BASE_HEALTH * 2 && health == ENEMY_BASE_HEALTH * 2
      ensures attackPower == ENEMY_BASE_ATTACK + 2
      ensures blocks && sightRadius == ENEMY_SIGHT_RADIUS - 1 && attackRangeTenths == ENEMY_ATTACK_RANGE_TENTHS
      ensures currentPath == None && state == Idle && currentWeapon == None
    {
      faction := EnemyFaction;
      this.x, this.y := x, y;
      name := "Orc";
      maxHealth, health := ENEMY_BASE_HEALTH * 2, ENEMY_BASE_HEALTH * 2;
      attackPower, blocks := ENEMY_BASE_ATTACK + 2, true;
      inventory, keys, currentWeapon := [], 0, None;
      sightRadius, attackRangeTenths := ENEMY_SIGHT_RADIUS - 1, ENEMY_ATTACK_RANGE_TENTHS;
      currentPath, state := None, Idle;
    }

    function Stats(): EntityStats
      reads this
    {
      EntityStats(name, maxHealth, health, attackPower, blocks, inventory, currentWeapon, currentPath, state)
    }

    /** Everything an attack on this entity leaves alone: all but its
        health, its blocking flag and its name. */
    function Untouched(): (Cell, int, seq<Item>, Option<Item>, Option<seq<Cell>>, AiState, int, int)
      reads this
    {
      ((x, y), keys, inventory, currentWeapon, currentPath, state, maxHealth, attackPower)
    }

    /** Every field of the entity that can change, as one value. */
    function State(): EntityState
      reads this
    {
      EntityState((x, y), keys, Stats())
    }

    /** The equipped item, if any, is a weapon. */
    predicate GearOK()
      reads this
    {
      currentWeapon.Some? ==> currentWeapon.value.kind.Weapon?
    }

    /** The stored path of an enemy is absent, or a non-empty chain of
        neighbouring cells starting next to the enemy. */
    predicate PathInSync()
      reads this
    {
      currentPath.None? || (currentPath.value != [] && IsChain((x, y), currentPath.value))
    }

    /** `die` (game.py:465-470): announced under the old name; the entity
        stops blocking and is renamed to its remains. */
    method Die(game: Game)
      modifies this`blocks, this`name, game`messageLog
      ensures !blocks && name == "remains of " + old(name)
      ensures game.messageLog == PushMessage(old(game.messageLog), Dies(old(name)))
    {
      game.AddMessage(Dies(name));
      blocks := false;
      name := "remains of " + name;
    }

    /** `take_damage` (game.py:452-457): health drops by exactly the amount,
        and the entity dies exactly when it reaches 0 or below. */
    method TakeDamage(amount: int, game: Game)
      modifies this`health, this`blocks, this`name, game`messageLog
      ensures health == old(health) - amount
      ensures health <= 0 ==>
        && !blocks && name == "remains of " + old(name)
        && game.messageLog == PushMessage(old(game.messageLog), Dies(old(name)))
      ensures health > 0 ==> blocks == old(blocks) && name == old(name) && game.messageLog == old(game.messageLog)
    {
      health := health - amount;
      if health <= 0 {
        Die(game);
      }
    }

    /** `attack` (game.py:459-463): the attack is announced, then the target
        takes this entity's attack power as damage. */
    method Attack(target: Entity, game: Game)
      modifies target`health, target`blocks, target`name, game`messageLog
      ensures target.health == old(target.health) - old(attackPower)
      ensures game.messageLog ==
        AttackLog(old(game.messageLog), old(name), old(target.name), old(attackPower), target.health)
      ensures target.health <= 0 ==> !target.blocks && target.name == "remains of " + old(target.name)
      ensures target.health > 0 ==> target.blocks == old(target.blocks) && target.name == old(target.name)
    {
      var damage := attackPower;
      game.AddMessage(Attacks(name, target.name, damage));
      target.TakeDamage(damage, game);
    }

    /** `heal` (game.py:473-477): restores HealAmount and returns it, so
        health never goes above its maximum. */
    method Heal(amount: int) returns (healed: int)
      modifies this`health
      ensures healed == HealAmount(amount, maxHealth, old(health))
      ensures health == old(health) + healed && health <= maxHealth
    {
      healed := if amount <= maxHealth - health then amount else maxHealth - health;
      health := health + healed;
    }

    /** `use_key` (game.py:570-586): with a key in hand, a closed door at
        (doorX, doorY) is opened in place and the key is spent; anything
        else changes nothing and fails. */
    method UseKey(doorX: int, doorY: int, level: GameMap, game: Game) returns (ok: bool)
      requires level.Valid() && level.InBounds(doorX, doorY)
      modifies this`keys, level.tiles, game`messageLog
      ensures ok <==> old(keys) > 0 && old(level.tiles[doorX, doorY]).kind == DoorClosed
      ensures ok ==> keys == old(keys) - 1 && level.tiles[doorX, doorY] == OpenDoor(old(level.tiles[doorX, doorY]))
      ensures ok ==> game.messageLog == PushMessage(old(game.messageLog), DoorUnlocked)
      ensures !ok ==> keys == old(keys) && level.tiles[doorX, doorY] == old(level.tiles[doorX, doorY])
      ensures !ok ==> game.messageLog == old(game.messageLog)
      ensures forall i, j :: 0 <= i < level.width && 0 <= j < level.height && (i, j) != (doorX, doorY) ==>
        level.tiles[i, j] == old(level.tiles[i, j])
    {
      if keys > 0 {
        var tile := level.tiles[doorX, doorY];
        if tile.kind == DoorClosed {
          level.tiles[doorX, doorY] := tile.(kind := DoorOpen, blocked := false, blockSight := false);
          keys := keys - 1;
          game.AddMessage(DoorUnlocked);
          return true;
        } else {
          return false;
        }
      } else {
        return false;
      }
    }

    /** The entity the move to (tx, ty) would bump into: the first blocking
        entity there, unless that is the mover itself. */
    function BumpTarget(entities: seq<Entity>, tx: int, ty: int): (r: Option<nat>)
      reads entities
      ensures r.Some? ==> r.value < |entities| && entities[r.value] != this && BlocksAt(entities[r.value], tx, ty)
      ensures r.Some? ==> forall j :: 0 <= j < r.value ==> !BlocksAt(entities[j], tx, ty)
      ensures r.None? ==> forall j :: 0 <= j < |entities| && BlocksAt(entities[j], tx, ty) && entities[j] != this ==>
        exists k :: 0 <= k < j && entities[k] == this
      ensures r.None? && !BlocksAt(this, tx, ty) ==> Free(entities, tx, ty)
    {
      match BlockingIndexAt(entities, tx, ty)
      case None => None
      case Some(i) => if entities[i] != this then Some(i) else None
    }

    /** A Player can fight an Enemy and an Enemy a Player (game.py:438-443). */
    predicate HostileTo(other: Entity) {
      (faction == PlayerFaction && other.faction == EnemyFaction) ||
      (faction == EnemyFaction && other.faction == PlayerFaction)
    }

    /** The target cell is a closed door the mover opens: it is the player
        and holds a key (game.py:426-429). */
    predicate OpensDoor(tx: int, ty: int, level: GameMap)
      requires level.Valid()
      reads this, level.tiles
    {
      !level.IsWalkable(tx, ty) && level.InBounds(tx, ty) && level.tiles[tx, ty].kind == DoorClosed &&
      faction == PlayerFaction && keys > 0
    }

    /** The target cell is a closed door and the mover is the player without
        a key: the only blocked move that is reported (game.py:430-432). */
    predicate LockedOut(tx: int, ty: int, level: GameMap)
      requires level.Valid()
      reads this, level.tiles
    {
      !level.IsWalkable(tx, ty) && level.InBounds(tx, ty) && level.tiles[tx, ty].kind == DoorClosed &&
      faction == PlayerFaction && keys <= 0
    }

    /** The unwalkable-target branch of `move` (game.py:423-433): a closed
        door is opened when the mover is the player with a key, and the
        turn is taken exactly then; the player without a key is told the
        door is locked; anything else changes nothing. */
    method MoveIntoBlocked(tx: int, ty: int, level: GameMap, game: Game) returns (acted: bool)
      requires level.Valid() && !level.IsWalkable(tx, ty)
      modifies this`keys, level.tiles, game`messageLog
      ensures acted <==> old(OpensDoor(tx, ty, level))
      ensures acted ==>
        && keys == old(keys) - 1
        && level.tiles[tx, ty] == OpenDoor(old(level.tiles[tx, ty]))
        && game.messageLog == PushMessage(old(game.messageLog), DoorUnlocked)
        && forall i, j :: 0 <= i < level.width && 0 <= j < level.height && (i, j) != (tx, ty) ==>
             level.tiles[i, j] == old(level.tiles[i, j])
      ensures !acted ==>
        && keys == old(keys)
        && (forall i, j :: 0 <= i < level.width && 0 <= j < level.height ==> level.tiles[i, j] == old(level.tiles[i, j]))
        && game.messageLog == if old(LockedOut(tx, ty, level))
             then PushMessage(old(game.messageLog), DoorLocked) else old(game.messageLog)
    {
      if level.InBounds(tx, ty) && level.tiles[tx, ty].kind == DoorClosed {
        if faction == PlayerFaction && keys > 0 {
          var _ := UseKey(tx, ty, level, game);
          return true;
        }
        if faction == PlayerFaction {
          game.AddMessage(DoorLocked);
        }
      }
      return false;
    }

    /** `move` (game.py:417-450). Into an unwalkable cell: the player with
        a key opens a closed door there and the turn is taken; otherwise
        nothing moves and the turn is not taken (with a message when the
        player meets a locked door). Into a walkable cell held by another
        blocking, living entity: a hostile one is attacked and the turn is
        taken, a friendly one stops the move. Otherwise the entity steps
        there. Nothing else changes: enemies never alter the map, and no
        entity but the attacked one is touched. */
    method Move(dx: int, dy: int, level: GameMap, entities: seq<Entity>, game: Game) returns (acted: bool)
      requires level.Valid()
      modifies this, entities, level.tiles, game`messageLog
      // A refused move changes no entity.
      ensures !acted ==>
        && x == old(x) && y == old(y) && Stats() == old(Stats()) && keys == old(keys)
        && (forall e :: e in entities && e != this ==> unchanged(e))
      // Unwalkable target: no step, and at most the key and the door change.
      ensures old(!level.IsWalkable(x + dx, y + dy)) ==>
        && x == old(x) && y == old(y) && Stats() == old(Stats())
        && (forall e :: e in entities && e != this ==> unchanged(e))
        && (acted <==> old(OpensDoor(x + dx, y + dy, level)))
      ensures old(OpensDoor(x + dx, y + dy, level)) ==>
        && keys == old(keys) - 1
        && level.tiles[x + dx, y + dy] == OpenDoor(old(level.tiles[x + dx, y + dy]))
        && game.messageLog == PushMessage(old(game.messageLog), DoorUnlocked)
        && forall i, j :: 0 <= i < level.width && 0 <= j < level.height && (i, j) != (x + dx, y + dy) ==>
             level.tiles[i, j] == old(level.tiles[i, j])
      ensures !old(OpensDoor(x + dx, y + dy, level)) ==>
        && keys == old(keys)
        && (forall i, j :: 0 <= i < level.width && 0 <= j < level.height ==> level.tiles[i, j] == old(level.tiles[i, j]))
      ensures old(!level.IsWalkable(x + dx, y + dy) && !OpensDoor(x + dx, y + dy, level)) ==>
        game.messageLog == if old(LockedOut(x + dx, y + dy, level))
          then PushMessage(old(game.messageLog), DoorLocked) else old(game.messageLog)
      // Walkable target with nobody else in the way: the step is taken.
      ensures old(level.IsWalkable(x + dx, y + dy) && BumpTarget(entities, x + dx, y + dy).None?) ==>
        && acted && x == old(x) + dx && y == old(y) + dy && Stats() == old(Stats())
        && game.messageLog == old(game.messageLog)
        && (forall e :: e in entities && e != this ==> unchanged(e))
      // Walkable target held by someone else: a bump.
      ensures old(level.IsWalkable(x + dx, y + dy) && BumpTarget(entities, x + dx, y + dy).Some?) ==>
        var t := old(entities[BumpTarget(entities, x + dx, y + dy).value]);
        && x == old(x) && y == old(y) && Stats() == old(Stats())
        && (acted <==> HostileTo(t))
        && (forall e :: e in entities && e != this && e != t ==> unchanged(e))
        && (!HostileTo(t) ==> unchanged(t) && game.messageLog == old(game.messageLog))
        && (HostileTo(t) ==>
              && t.health == old(t.health) - old(attackPower)
              && t.blocks == (old(t.blocks) && t.health > 0)
              && t.name == (if t.health <= 0 then "remains of " + old(t.name) else old(t.name))
              && t.Untouched() == old(t.Untouched())
              && game.messageLog == AttackLog(old(game.messageLog), old(name), old(t.name), old(attackPower), t.health))
      ensures MoveOutcome(dx, dy, level, entities, game, acted) && MovedFreely(entities, (x, y))
      ensures acted == old(MoveTakesTurn(dx, dy, level, entities))
      // Whoever is attacked keeps its place and gear; nobody else is touched.
      ensures forall e :: e in entities && e != this ==> e.Untouched() == old(e.Untouched())
      ensures forall e :: e in entities && e != this && !HostileTo(e) ==> unchanged(e)
    {
      var tx, ty := x + dx, y + dy;
      if !level.IsWalkable(tx, ty) {
        acted := MoveIntoBlocked(tx, ty, level, game);
        return;
      }
      acted := MoveIntoOpen(tx, ty, entities, game);
    }

    /** The outcome of `move` (game.py:417-450) for the mover's position,
        keys and turn and for the map and the log, as Move describes it:
        the door, the key and the locked-door message, the step onto a free
        cell, and the bump that takes the turn exactly when it is an attack. */
    twostate predicate MoveOutcome(dx: int, dy: int, level: GameMap, entities: seq<Entity>, game: Game, acted: bool)
      requires level.Valid()
      reads this, level.tiles, entities, game
    {
      var tx, ty := old(x) + dx, old(y) + dy;
      && (old(!level.IsWalkable(tx, ty)) ==>
            x == old(x) && y == old(y) && (acted <==> old(OpensDoor(tx, ty, level))))
      && (old(OpensDoor(tx, ty, level)) ==>
            && keys == old(keys) - 1
            && level.tiles[tx, ty] == OpenDoor(old(level.tiles[tx, ty]))
            && game.messageLog == PushMessage(old(game.messageLog), DoorUnlocked)
            && forall i, j :: 0 <= i < level.width && 0 <= j < level.height && (i, j) != (tx, ty) ==>
                 level.tiles[i, j] == old(level.tiles[i, j]))
      && (!old(OpensDoor(tx, ty, level)) ==>
            && keys == old(keys)
            && forall i, j :: 0 <= i < level.width && 0 <= j < level.height ==> level.tiles[i, j] == old(level.tiles[i, j]))
      && (old(LockedOut(tx, ty, level)) ==> game.messageLog == PushMessage(old(game.messageLog), DoorLocked))
      && (old(level.IsWalkable(tx, ty) && BumpTarget(entities, tx, ty).None?) ==> acted && x == tx && y == ty)
      && (old(level.IsWalkable(tx, ty) && BumpTarget(entities, tx, ty).Some?) ==>
            x == old(x) && y == old(y) && (acted <==> HostileTo(old(entities[BumpTarget(entities, tx, ty).value]))))
    }

    /** Whether a move by (dx, dy) takes the turn (game.py:423-450), judged
        before it: a closed door the mover opens with a key, a step onto a
        free walkable cell, or an attack on a hostile blocker there. */
    predicate MoveTakesTurn(dx: int, dy: int, level: GameMap, entities: seq<Entity>)
      requires level.Valid()
      reads this, level.tiles, entities
    {
      var tx, ty := x + dx, y + dy;
      if level.IsWalkable(tx, ty) then
        var b := BumpTarget(entities, tx, ty);
        b.None? || HostileTo(entities[b.value])
      else OpensDoor(tx, ty, level)
    }

    /** Whether `pick_up_item` takes the turn (game.py:503-527), judged
        before it: there is an item underfoot and it is a Key or the
        inventory has room for it. */
    predicate PickUpTakesTurn(items: seq<Item>)
      reads this
    {
      match ItemAt(items, x, y)
      case None => false
      case Some(i) => items[i].name == "Key" || |inventory| < PLAYER_INVENTORY_SIZE
    }

    /** Whether `use_item` takes the turn (game.py:529-552), judged before
        it: the slot exists, and a potion in it would heal something. */
    predicate UseTakesTurn(index: int)
      reads this
    {
      && 0 <= index < |inventory|
      && (inventory[index].kind.Potion? ==> HealAmount(inventory[index].kind.amount, maxHealth, health) > 0)
    }

    /** The walkable-target branch of `move` (game.py:436-450): a blocking
        entity other than the mover is attacked when hostile, which takes
        the turn, and otherwise stops the move; with nobody in the way the
        mover steps onto the cell. */
    method MoveIntoOpen(tx: int, ty: int, entities: seq<Entity>, game: Game) returns (acted: bool)
      modifies this`x, this`y, entities, game`messageLog
      ensures old(BumpTarget(entities, tx, ty)).None? ==>
        && acted && x == tx && y == ty && Stats() == old(Stats()) && keys == old(keys)
        && game.messageLog == old(game.messageLog)
        && (forall e :: e in entities && e != this ==> unchanged(e))
      ensures old(BumpTarget(entities, tx, ty)).Some? ==>
        var t := old(entities[BumpTarget(entities, tx, ty).value]);
        && x == old(x) && y == old(y) && Stats() == old(Stats()) && keys == old(keys)
        && (acted <==> HostileTo(t))
        && (forall e :: e in entities && e != this && e != t ==> unchanged(e))
        && (!HostileTo(t) ==> unchanged(t) && game.messageLog == old(game.messageLog))
        && (HostileTo(t) ==>
              && t.health == old(t.health) - old(attackPower)
              && t.blocks == (old(t.blocks) && t.health > 0)
              && t.name == (if t.health <= 0 then "remains of " + old(t.name) else old(t.name))
              && t.Untouched() == old(t.Untouched())
              && game.messageLog == AttackLog(old(game.messageLog), old(name), old(t.name), old(attackPower), t.health))
      ensures forall e :: e in entities && e != this ==> e.Untouched() == old(e.Untouched())
      ensures forall e :: e in entities && e != this && !HostileTo(e) ==> unchanged(e)
    {
      var found := BumpTarget(entities, tx, ty);
      if found.Some? {
        var target := entities[found.value];
        if HostileTo(target) {
          Attack(target, game);
          return true;
        }
        return false;
      }
      x, y := tx, ty;
      return true;
    }

    /** `equip_weapon` (game.py:554-567). A weapon in the inventory becomes
        the equipped one and the attack power becomes the base attack plus
        its bonus, whatever was equipped before (the subtraction of the old
        bonus is overwritten at once), so equipping the same weapon twice
        is the same as once. Otherwise only a message is added. */
    method EquipWeapon(weapon: Item, game: Game)
      requires weapon.kind.Weapon? && GearOK()
      modifies this`currentWeapon, this`attackPower, game`messageLog
      ensures GearOK()
      ensures weapon in inventory ==>
        && currentWeapon == Some(weapon) && attackPower == PLAYER_ATTACK + weapon.kind.bonus
        && game.messageLog == PushMessage(old(game.messageLog), Equipped(weapon.name, weapon.kind.bonus))
      ensures weapon !in inventory ==>
        && currentWeapon == old(currentWeapon) && attackPower == old(attackPower)
        && game.messageLog == PushMessage(old(game.messageLog), CannotEquip)
    {
      if weapon in inventory {
        if currentWeapon.Some? {
          attackPower := attackPower - currentWeapon.value.kind.bonus;
        }
        currentWeapon := Some(weapon);
        attackPower := PLAYER_ATTACK + weapon.kind.bonus;
        game.AddMessage(Equipped(weapon.name, weapon.kind.bonus));
      } else {
        game.AddMessage(CannotEquip);
      }
    }

    /** The outcome of `pick_up_item` (game.py:503-527) for this entity,
        the game's ground items and its log, with `acted` telling whether
        the turn was taken, as PickUpItem describes it. */
    twostate predicate PickUpOutcome(game: Game, acted: bool)
      reads this, game
    {
      && (old(ItemAt(game.items, x, y)).None? ==>
          && !acted && keys == old(keys) && inventory == old(inventory) && game.items == old(game.items)
          && currentWeapon == old(currentWeapon) && attackPower == old(attackPower)
          && game.messageLog == PushMessage(old(game.messageLog), NothingHere))
      && (old(ItemAt(game.items, x, y)).Some? ==>
          var i := old(ItemAt(game.items, x, y)).value;
          var item := old(game.items[i]);
          && (item.name == "Key" ==>
                && acted && keys == old(keys) + 1 && inventory == old(inventory)
                && game.items == RemoveAt(old(game.items), i)
                && currentWeapon == old(currentWeapon) && attackPower == old(attackPower)
                && game.messageLog == PushMessage(old(game.messageLog), PickedUp(item.name)))
          && (item.name != "Key" && |old(inventory)| < PLAYER_INVENTORY_SIZE ==>
                && acted && keys == old(keys) && inventory == old(inventory) + [item]
                && game.items == RemoveAt(old(game.items), i)
                && (if item.kind.Weapon? && (old(currentWeapon).None? || item.kind.bonus > WeaponBonus(old(currentWeapon)))
                    then currentWeapon == Some(item) && attackPower == PLAYER_ATTACK + item.kind.bonus &&
                         game.messageLog == PushMessage(PushMessage(old(game.messageLog), PickedUp(item.name)),
                                                        Equipped(item.name, item.kind.bonus))
                    else currentWeapon == old(currentWeapon) && attackPower == old(attackPower) &&
                         game.messageLog == PushMessage(old(game.messageLog), PickedUp(item.name))))
          && (item.name != "Key" && |old(inventory)| >= PLAYER_INVENTORY_SIZE ==>
                && !acted && keys == old(keys) && inventory == old(inventory) && game.items == old(game.items)
                && currentWeapon == old(currentWeapon) && attackPower == old(attackPower)
                && game.messageLog == PushMessage(old(game.messageLog), InventoryFull)))
    }

    /** `pick_up_item` (game.py:503-527), on the game's ground items. The
        first item under the player is taken: a Key raises the key count, any
        other item joins the inventory only while it holds fewer than
        PLAYER_INVENTORY_SIZE items (a weapon is equipped when none is or
        when its bonus is larger). Either way the item leaves the ground. A
        full inventory or an empty cell changes nothing but the log. */
    method PickUpItem(game: Game) returns (acted: bool)
      requires GearOK()
      modifies this`keys, this`inventory, this`currentWeapon, this`attackPower, game`items, game`messageLog
      ensures GearOK()
      ensures PickUpOutcome(game, acted)
      ensures |old(inventory)| <= PLAYER_INVENTORY_SIZE ==> |inventory| <= PLAYER_INVENTORY_SIZE
    {
      var found := ItemAt(game.items, x, y);
      if found.Some? {
        var item := game.items[found.value];
        if item.name == "Key" {
          keys := keys + 1;
          game.items := RemoveAt(game.items, found.value);
          game.AddMessage(PickedUp(item.name));
          return true;
        } else if |inventory| < PLAYER_INVENTORY_SIZE {
          inventory := inventory + [item];
          game.items := RemoveAt(game.items, found.value);
          game.AddMessage(PickedUp(item.name));
          if item.kind.Weapon? {
            if currentWeapon.None? || item.kind.bonus > currentWeapon.value.kind.bonus {
              EquipWeapon(item, game);
            }
          }
          return true;
        } else {
          game.AddMessage(InventoryFull);
          return false;
        }
      } else {
        game.AddMessage(NothingHere);
        return false;
      }
    }

    /** The outcome of `use_item` (game.py:529-552) for this entity and
        the game's log, with `acted` telling whether the turn was taken, as
        UseItem describes it. */
    twostate predicate UseOutcome(index: int, game: Game, acted: bool)
      reads this, game
    {
      && (!(0 <= index < |old(inventory)|) ==>
          && !acted && health == old(health) && inventory == old(inventory)
          && currentWeapon == old(currentWeapon) && attackPower == old(attackPower)
          && game.messageLog == old(game.messageLog))
      && (0 <= index < |old(inventory)| ==>
          var item := old(inventory[index]);
          && (item.kind.Potion? ==>
                var healed := HealAmount(item.kind.amount, maxHealth, old(health));
                && health == old(health) + healed
                && currentWeapon == old(currentWeapon) && attackPower == old(attackPower)
                && (acted <==> healed > 0)
                && inventory == (if healed > 0 then RemoveAt(old(inventory), index) else old(inventory))
                && game.messageLog == PushMessage(old(game.messageLog),
                     if healed > 0 then Healed(item.name, healed) else AlreadyFullHealth))
          && (item.kind.Weapon? ==>
                && acted && health == old(health) && inventory == old(inventory)
                && currentWeapon == Some(item) && attackPower == PLAYER_ATTACK + item.kind.bonus
                && game.messageLog == PushMessage(old(game.messageLog), Equipped(item.name, item.kind.bonus)))
          && (item.kind.KeyItem? ==>
                && acted && health == old(health) && inventory == old(inventory)
                && currentWeapon == old(currentWeapon) && attackPower == old(attackPower)
                && game.messageLog == old(game.messageLog)))
    }

    /** `use_item` (game.py:529-552). A potion heals by HealAmount and is
        used up only when that is positive; at full health it stays and the
        turn is not taken. A weapon is equipped and stays in the inventory.
        An index outside the inventory does nothing. */
    method UseItem(index: int, game: Game) returns (acted: bool)
      requires GearOK()
      modifies this`health, this`inventory, this`currentWeapon, this`attackPower, game`messageLog
      ensures GearOK()
      ensures UseOutcome(index, game, acted)
    {
      if 0 <= index < |inventory| {
        var item := inventory[index];
        var used := false;
        if item.kind.Potion? {
          var healed := Heal(item.kind.amount);
          if healed > 0 {
            game.AddMessage(Healed(item.name, healed));
            used := true;
          } else {
            game.AddMessage(AlreadyFullHealth);
            return false;
          }
        } else if item.kind.Weapon? {
          EquipWeapon(item, game);
          return true;
        }
        if used {
          inventory := RemoveAt(inventory, index);
        }
        return true;
      } else {
        return false;
      }
    }

    /** The move onto (tx, ty) would bump into e: e is the first living,
        blocking entity there and is not the mover. */
    predicate Bumps(entities: seq<Entity>, tx: int, ty: int, e: Entity)
      reads entities
    {
      var r := BumpTarget(entities, tx, ty);
      r.Some? && entities[r.value] == e
    }

    /** The test at the head of `take_turn` (game.py:603-606): the player is
        within the sight radius and stands on an explored tile. */
    predicate Sees(player: Entity, level: GameMap)
      requires level.Valid() && level.InBounds(player.x, player.y)
      reads this, player, level.tiles
    {
      Chebyshev(x, y, player.x, player.y) <= sightRadius && level.tiles[player.x, player.y].explored
    }

    /** A step straight at the player is an attack on it (game.py:611-617):
        the enemy is next to the player (or on its cell), the player's cell
        is walkable, and the player is the one the step bumps into. */
    predicate CanStrike(player: Entity, level: GameMap, entities: seq<Entity>)
      requires level.Valid()
      reads this, player, entities, level.tiles
    {
      Chebyshev(x, y, player.x, player.y) <= 1 && level.IsWalkable(player.x, player.y)
      && Bumps(entities, player.x, player.y, player)
    }

    /** The outcome of a strike (game.py:615-617): the enemy stays, is
        attacking and has no path; the player lost the enemy's attack power
        and the attack is logged. */
    twostate predicate Struck(player: Entity, game: Game)
      reads this, player, game
    {
      && state == Attacking && currentPath == None && (x, y) == old((x, y))
      && player.health == old(player.health) - old(attackPower)
      && game.messageLog == AttackLog(old(game.messageLog), old(name), old(player.name), old(attackPower), player.health)
    }

    /** This enemy's Sight of the player on `level` among `entities`. */
    function SightOf(player: Entity, level: GameMap, entities: seq<Entity>): Sight
      requires level.Valid() && level.InBounds(player.x, player.y)
      reads this, player, entities, level.tiles
    {
      Sight(Sees(player, level), (x, y), attackPower,
            WithinRange(Chebyshev(x, y, player.x, player.y), attackRangeTenths), CanStrike(player, level, entities))
    }

    /** The outcome of following the path p one step (game.py:642-649): the
        enemy steps onto its first cell exactly when that cell is walkable
        and nobody blocks it, and then keeps the rest of p; otherwise it
        stays and keeps no path. */
    twostate predicate SteppedAlong(new p: seq<Cell>, level: GameMap, entities: seq<Entity>)
      requires level.Valid()
      reads this
    {
      p != [] &&
      if old(level.IsWalkable(p[0].0, p[0].1) && BumpTarget(entities, p[0].0, p[0].1).None?)
      then (x, y) == p[0] && currentPath == Rest(p)
      else (x, y) == old((x, y)) && currentPath == None
    }

    /** What a turn keeps of an enemy for the others around it: its health
        and its blocking flag, and it only ever steps onto a cell that
        nobody blocked. */
    twostate predicate MovedFreely(entities: seq<Entity>, new now: Cell)
      reads this, entities
    {
      && health == old(health) && blocks == old(blocks) && now == (x, y)
      && (now == old((x, y)) || old(Free(entities, now.0, now.1)))
    }

    /** `move_towards` (game.py:634-651) for an enemy chasing a target more
        than one step away, where every entity hostile to it stands on the
        target. A stored path that is not empty is followed; otherwise the
        pathfinder is asked for a walk to the target, and without one the
        enemy stays and keeps no path. The followed path is stepped along
        once. Nobody is attacked, so no other entity and no message
        changes, and the map is untouched. */
    method MoveTowards(tx: int, ty: int, level: GameMap, entities: seq<Entity>, game: Game)
      returns (ghost followed: Option<seq<Cell>>)
      requires level.Valid() && faction == EnemyFaction && PathInSync()
      requires Chebyshev(x, y, tx, ty) > 1
      requires forall e :: e in entities && HostileTo(e) ==> e.x == tx && e.y == ty
      modifies this, entities, level.tiles, game`messageLog
      ensures PathInSync()
      ensures (x, y) == old((x, y)) || Adjacent8(old((x, y)), (x, y))
      ensures Stats() == old(Stats()).(currentPath := currentPath) && keys == old(keys)
      ensures forall e :: e in entities && e != this ==> unchanged(e)
      ensures game.messageLog == old(game.messageLog)
      ensures forall i, j :: 0 <= i < level.width && 0 <= j < level.height ==> level.tiles[i, j] == old(level.tiles[i, j])
      // Which path is followed.
      ensures old(Truthy(currentPath)) ==> followed == old(currentPath)
      ensures !old(Truthy(currentPath)) && followed.Some? ==>
        followed.value != [] && level.IsWalk(old((x, y)), followed.value)
        && WalkEnd(old((x, y)), followed.value) == (tx, ty)
      ensures followed.None? ==>
        && !old(Truthy(currentPath)) && (x, y) == old((x, y)) && currentPath == None
        && old(!level.IsWalkable(x, y) || !level.IsWalkable(tx, ty) || level.Unreachable((x, y), (tx, ty)))
      // One step along it.
      ensures followed.Some? ==> SteppedAlong(followed.value, level, entities)
      ensures MovedFreely(entities, (x, y))
    {
      followed := if Truthy(currentPath) then currentPath else None;
      if !Truthy(currentPath) {
        var path := level.GetPath(x, y, tx, ty);
        if Truthy(path) {
          level.WalkIsChain((x, y), path.value);
          currentPath := path;
          followed := path;
        }
      }
      if Truthy(currentPath) {
        StepAlong(currentPath.value, tx, ty, level, entities, game);
      }
    }

    /** The stepping half of `move_towards` (game.py:642-649): the first
        cell of the path p, a neighbour of the enemy, is taken off and the
        enemy tries to step onto it. Since every entity hostile to it stands
        on the target, farther away than that cell, the step is never an
        attack. A walk from the enemy's cell stays one, as no tile changes. */
    method StepAlong(p: seq<Cell>, tx: int, ty: int, level: GameMap, entities: seq<Entity>, game: Game)
      requires level.Valid() && faction == EnemyFaction
      requires p != [] && IsChain((x, y), p)
      requires Chebyshev(x, y, tx, ty) > 1
      requires forall e :: e in entities && HostileTo(e) ==> e.x == tx && e.y == ty
      modifies this, entities, level.tiles, game`messageLog
      ensures PathInSync()
      ensures (x, y) == old((x, y)) || Adjacent8(old((x, y)), (x, y))
      ensures Stats() == old(Stats()).(currentPath := currentPath) && keys == old(keys)
      ensures forall e :: e in entities && e != this ==> unchanged(e)
      ensures game.messageLog == old(game.messageLog)
      ensures forall i, j :: 0 <= i < level.width && 0 <= j < level.height ==> level.tiles[i, j] == old(level.tiles[i, j])
      ensures SteppedAlong(p, level, entities) && MovedFreely(entities, (x, y))
      ensures old(level.IsWalk((x, y), p)) ==> level.IsWalk(old((x, y)), p)
    {
      ChainTail((x, y), p);
      var next := p[0];
      ghost var from := (x, y);
      currentPath := Some(p[1..]);
      var moved := StepTo(next, tx, ty, level, entities, game);
      if !moved {
        currentPath := None;
      }
      if !Truthy(currentPath) {
        currentPath := None;
      }
      if old(level.IsWalk((x, y), p)) {
        forall i | 0 <= i < |p| ensures level.StepOK(from, p, i) {
          assert old(level.StepOK(from, p, i));
        }
      }
    }

    /** The move of StepAlong (game.py:645-647) onto `next`, a neighbour
        of the enemy's cell: never a door and never an attack, so the enemy
        steps onto it exactly when it is walkable and nobody blocks it, and
        otherwise nothing changes. */
    method StepTo(next: Cell, tx: int, ty: int, level: GameMap, entities: seq<Entity>, game: Game) returns (moved: bool)
      requires level.Valid() && faction == EnemyFaction
      requires Adjacent8((x, y), next) && Chebyshev(x, y, tx, ty) > 1
      requires forall e :: e in entities && HostileTo(e) ==> e.x == tx && e.y == ty
      modifies this, entities, level.tiles, game`messageLog
      ensures moved <==> old(level.IsWalkable(next.0, next.1) && BumpTarget(entities, next.0, next.1).None?)
      ensures (x, y) == if moved then next else old((x, y))
      ensures moved ==> old(Free(entities, next.0, next.1))
      ensures Stats() == old(Stats()) && keys == old(keys)
      ensures forall e :: e in entities && e != this ==> unchanged(e)
      ensures game.messageLog == old(game.messageLog)
      ensures forall i, j :: 0 <= i < level.width && 0 <= j < level.height ==> level.tiles[i, j] == old(level.tiles[i, j])
    {
      ChebyshevOneIsAdjacent((x, y), (tx, ty));
      assert !OpensDoor(next.0, next.1, level) && !LockedOut(next.0, next.1, level);
      ghost var bump := BumpTarget(entities, next.0, next.1);
      assert bump.Some? ==> !HostileTo(entities[bump.value]);
      moved := Move(next.0 - x, next.1 - y, level, entities, game);
    }

    /** The in-range branch of `take_turn` (game.py:609-621): one step
        straight at the player. When that is a strike, the enemy has struck.
        A successful step also forgets the path; a refused one leaves the
        enemy chasing, and falls back to the path only when the player is
        more than 1.5 away. The player is hurt in no other way, and no other
        enemy is touched. */
    method StrikeAt(player: Entity, level: GameMap, entities: seq<Entity>, game: Game)
      requires level.Valid() && level.InBounds(player.x, player.y)
      requires player.faction == PlayerFaction
      requires faction == EnemyFaction && PathInSync()
      requires forall e :: e in entities && HostileTo(e) ==> e.x == player.x && e.y == player.y
      modifies this, entities, level.tiles, game`messageLog
      ensures PathInSync() && attackPower == old(attackPower)
      ensures (x, y) == old((x, y)) || Adjacent8(old((x, y)), (x, y))
      ensures state == Attacking || state == Chasing
      ensures state == Attacking ==> currentPath == None
      ensures old(Chebyshev(x, y, player.x, player.y)) <= 1 && state == Chasing ==>
        (x, y) == old((x, y)) && currentPath == old(currentPath)
      ensures old(CanStrike(player, level, entities)) ==> Struck(player, game)
      ensures player.health == old(player.health) ||
        (old(CanStrike(player, level, entities)) && player.health == old(player.health) - old(attackPower))
      ensures MovedFreely(entities, (x, y)) && (old((x, y) == (player.x, player.y)) ==> (x, y) == old((x, y)))
      ensures player.x == old(player.x) && player.y == old(player.y)
      ensures player.health > 0 ==> player.blocks == old(player.blocks)
      ensures forall e :: e in entities && e != this ==> e.Untouched() == old(e.Untouched())
      ensures forall e :: e in entities && e != this && e.faction == EnemyFaction ==> unchanged(e)
      ensures forall i, j :: 0 <= i < level.width && 0 <= j < level.height ==> level.tiles[i, j] == old(level.tiles[i, j])
    {
      var dist := Chebyshev(x, y, player.x, player.y);
      DefaultRangeIsAdjacency(dist);
      assert player != this;
      var moved := Lunge(player, level, entities, game);
      if moved {
        state := Attacking;
        currentPath := None;
      } else {
        if !WithinRange(dist, ENEMY_ATTACK_RANGE_TENTHS) {
          var _ := MoveTowards(player.x, player.y, level, entities, game);
          assert player in entities || unchanged(player);
        }
        state := Chasing;
      }
    }

    /** The move of StrikeAt (game.py:611-617): one step by the sign of each
        coordinate difference, that is straight at the player. A refused
        step changes nothing. The player is hurt only by a strike; no other
        enemy is touched. */
    method Lunge(player: Entity, level: GameMap, entities: seq<Entity>, game: Game) returns (moved: bool)
      requires level.Valid() && level.InBounds(player.x, player.y)
      requires player.faction == PlayerFaction && faction == EnemyFaction
      requires forall e :: e in entities && HostileTo(e) ==> e.x == player.x && e.y == player.y
      modifies this, entities, level.tiles, game`messageLog
      ensures Stats() == old(Stats()) && keys == old(keys)
      ensures (x, y) == old((x, y)) || Adjacent8(old((x, y)), (x, y))
      ensures player.x == old(player.x) && player.y == old(player.y)
      ensures !moved ==> (x, y) == old((x, y))
      ensures MovedFreely(entities, (x, y)) && (old((x, y) == (player.x, player.y)) ==> (x, y) == old((x, y)))
      ensures player.health > 0 ==> player.blocks == old(player.blocks)
      ensures old(CanStrike(player, level, entities)) ==>
        && moved && (x, y) == old((x, y))
        && player.health == old(player.health) - old(attackPower)
        && game.messageLog == AttackLog(old(game.messageLog), old(name), old(player.name), old(attackPower), player.health)
      ensures player.health == old(player.health) ||
        (old(CanStrike(player, level, entities)) && player.health == old(player.health) - old(attackPower))
      ensures forall e :: e in entities && e != this ==> e.Untouched() == old(e.Untouched())
      ensures forall e :: e in entities && e != this && e.faction == EnemyFaction ==> unchanged(e)
      ensures forall i, j :: 0 <= i < level.width && 0 <= j < level.height ==> level.tiles[i, j] == old(level.tiles[i, j])
    {
      var stepX, stepY := Sign(player.x - x), Sign(player.y - y);
      SignStepReaches(x, y, player.x, player.y);
      ChebyshevOneIsAdjacent((x, y), (x + stepX, y + stepY));
      if CanStrike(player, level, entities) {
        // The step lands on the player, who is the one bumped into.
        assert (x + stepX, y + stepY) == (player.x, player.y);
        moved := StrikeStep(stepX, stepY, player, level, entities, game);
      } else {
        moved := PlainStep(stepX, stepY, player, level, entities, game);
      }
    }

    /** Lunge's move when it is a strike (game.py:615-617): the step lands
        on the player, who is the first blocker there, so the player is
        attacked and the enemy stays. */
    method StrikeStep(dx: int, dy: int, player: Entity, level: GameMap, entities: seq<Entity>, game: Game)
      returns (moved: bool)
      requires level.Valid() && player.faction == PlayerFaction && faction == EnemyFaction
      requires (x + dx, y + dy) == (player.x, player.y) && CanStrike(player, level, entities)
      modifies this, entities, level.tiles, game`messageLog
      ensures moved && (x, y) == old((x, y)) && Stats() == old(Stats()) && keys == old(keys)
      ensures player.x == old(player.x) && player.y == old(player.y)
      ensures player.health == old(player.health) - old(attackPower)
      ensures player.blocks == (old(player.blocks) && player.health > 0)
      ensures game.messageLog == AttackLog(old(game.messageLog), old(name), old(player.name), old(attackPower), player.health)
      ensures forall e :: e in entities && e != this ==> e.Untouched() == old(e.Untouched())
      ensures forall e :: e in entities && e != this && e != player ==> unchanged(e)
      ensures forall i, j :: 0 <= i < level.width && 0 <= j < level.height ==> level.tiles[i, j] == old(level.tiles[i, j])
    {
      assert player != this;
      assert !OpensDoor(x + dx, y + dy, level) && !LockedOut(x + dx, y + dy, level);
      assert entities[BumpTarget(entities, x + dx, y + dy).value] == player;
      moved := Move(dx, dy, level, entities, game);
    }

    /** Lunge's move when it is not a strike at the player (game.py:611-614):
        a step of at most one cell that the enemy takes only onto a free
        cell; the player is not touched, and neither is another enemy. */
    method PlainStep(dx: int, dy: int, player: Entity, level: GameMap, entities: seq<Entity>, game: Game)
      returns (moved: bool)
      requires level.Valid() && player.faction == PlayerFaction && faction == EnemyFaction
      requires -1 <= dx <= 1 && -1 <= dy <= 1 && !CanStrike(player, level, entities)
      requires forall e :: e in entities && HostileTo(e) ==> e.x == player.x && e.y == player.y
      modifies this, entities, level.tiles, game`messageLog
      ensures Stats() == old(Stats()) && keys == old(keys) && MovedFreely(entities, (x, y))
      ensures (x, y) == old((x, y)) || (moved && (x, y) == old((x + dx, y + dy)))
      ensures !moved ==> (x, y) == old((x, y))
      ensures player.x == old(player.x) && player.y == old(player.y)
      ensures player.health == old(player.health) && player.blocks == old(player.blocks)
      ensures forall e :: e in entities && e != this ==> e.Untouched() == old(e.Untouched())
      ensures forall e :: e in entities && e != this && e.faction == EnemyFaction ==> unchanged(e)
      ensures forall i, j :: 0 <= i < level.width && 0 <= j < level.height ==> level.tiles[i, j] == old(level.tiles[i, j])
    {
      assert player != this;
      assert !OpensDoor(x + dx, y + dy, level) && !LockedOut(x + dx, y + dy, level);
      assert level.IsWalkable(x + dx, y + dy) ==> !Bumps(entities, x + dx, y + dy, player);
      moved := Move(dx, dy, level, entities, game);
      assert player in entities || unchanged(player);
    }

    /** The chase branch of `take_turn` (game.py:623-625): the enemy turns to
        chasing and moves towards the player as MoveTowards says; the player,
        every other entity, the log and the map are left alone. */
    method Chase(player: Entity, level: GameMap, entities: seq<Entity>, game: Game)
      returns (ghost followed: Option<seq<Cell>>)
      requires level.Valid() && player.faction == PlayerFaction
      requires faction == EnemyFaction && PathInSync() && Chebyshev(x, y, player.x, player.y) > 1
      requires forall e :: e in entities && HostileTo(e) ==> e.x == player.x && e.y == player.y
      modifies this, entities, level.tiles, game`messageLog
      ensures PathInSync() && attackPower == old(attackPower) && state == Chasing
      ensures (x, y) == old((x, y)) || Adjacent8(old((x, y)), (x, y))
      ensures unchanged(player) && forall e :: e in entities && e != this ==> unchanged(e)
      ensures game.messageLog == old(game.messageLog)
      ensures forall i, j :: 0 <= i < level.width && 0 <= j < level.height ==> level.tiles[i, j] == old(level.tiles[i, j])
      ensures old(Truthy(currentPath)) ==> followed == old(currentPath)
      ensures !old(Truthy(currentPath)) && followed.Some? ==>
        level.IsWalk(old((x, y)), followed.value) && WalkEnd(old((x, y)), followed.value) == (player.x, player.y)
      ensures followed.None? ==> (x, y) == old((x, y)) && currentPath == None
      ensures followed.Some? ==> SteppedAlong(followed.value, level, entities)
      ensures MovedFreely(entities, (x, y))
    {
      assert player != this;
      state := Chasing;
      followed := MoveTowards(player.x, player.y, level, entities, game);
      assert player in entities || unchanged(player);
    }

    /** `take_turn` (game.py:599-628) for an enemy, given the player standing
        on the map, where every entity hostile to the enemy stands on the
        player's cell. When it does not see the player it goes idle. Seeing
        the player within attack range it strikes at it as StrikeAt says;
        seeing it farther away it turns to chasing and moves along a path as
        MoveTowards says. The player loses this enemy's attack power exactly
        when it is seen and can be struck, and is hurt in no other way;
        other enemies are not touched, and the map is kept. */
    method TakeTurn(player: Entity, level: GameMap, entities: seq<Entity>, game: Game)
      returns (ghost followed: Option<seq<Cell>>)
      requires level.Valid() && level.InBounds(player.x, player.y)
      requires player.faction == PlayerFaction
      requires faction == EnemyFaction && PathInSync() && attackRangeTenths >= 10
      requires forall e :: e in entities && HostileTo(e) ==> e.x == player.x && e.y == player.y
      modifies this, entities, level.tiles, game`messageLog
      ensures PathInSync() && attackPower == old(attackPower)
      ensures (x, y) == old((x, y)) || Adjacent8(old((x, y)), (x, y))
      ensures forall e :: e in entities && e != this ==> e.Untouched() == old(e.Untouched())
      ensures forall e :: e in entities && e != this && e.faction == EnemyFaction ==> unchanged(e)
      ensures forall i, j :: 0 <= i < level.width && 0 <= j < level.height ==> level.tiles[i, j] == old(level.tiles[i, j])
      // Out of sight.
      ensures !old(Sees(player, level)) ==>
        && State().IdleAt(old((x, y))) && game.messageLog == old(game.messageLog)
        && forall e :: e in entities && e != this ==> unchanged(e)
      // In sight and in range: the strike.
      ensures old(Sees(player, level) && WithinRange(Chebyshev(x, y, player.x, player.y), attackRangeTenths)) ==>
        && (state == Attacking || state == Chasing)
        && (state == Attacking ==> currentPath == None)
        && (old(Chebyshev(x, y, player.x, player.y)) <= 1 && state == Chasing ==>
              (x, y) == old((x, y)) && currentPath == old(currentPath))
      ensures old(Sees(player, level) && CanStrike(player, level, entities)) ==> Struck(player, game)
      // In sight, out of range: the chase.
      ensures old(Sees(player, level) && !WithinRange(Chebyshev(x, y, player.x, player.y), attackRangeTenths)) ==>
        && state == Chasing
        && (old(Truthy(currentPath)) ==> followed == old(currentPath))
        && (!old(Truthy(currentPath)) && followed.Some? ==>
              level.IsWalk(old((x, y)), followed.value)
              && WalkEnd(old((x, y)), followed.value) == (old(player.x), old(player.y)))
        && (followed.None? ==> (x, y) == old((x, y)) && currentPath == None)
        && (followed.Some? ==> SteppedAlong(followed.value, level, entities))
        && (forall e :: e in entities && e != this ==> unchanged(e))
        && game.messageLog == old(game.messageLog)
      // The only harm to the player.
      ensures player.health == old(player.health) ||
        (old(Sees(player, level) && CanStrike(player, level, entities))
         && player.health == old(player.health) - old(attackPower))
      // What the others can rely on: the enemy keeps its health and blocking
      // flag, steps only onto a free cell and never off the player's cell,
      // and the player keeps its cell and blocks while it lives.
      ensures MovedFreely(entities, (x, y)) && (old((x, y) == (player.x, player.y)) ==> (x, y) == old((x, y)))
      ensures player.x == old(player.x) && player.y == old(player.y)
      ensures player.health > 0 ==> player.blocks == old(player.blocks)
    {
      var dist := Chebyshev(x, y, player.x, player.y);
      DefaultRangeIsAdjacency(dist);
      followed := None;
      var visible := level.tiles[player.x, player.y].explored;
      if dist <= sightRadius && visible {
        if WithinRange(dist, attackRangeTenths) {
          StrikeAt(player, level, entities, game);
        } else {
          followed := Chase(player, level, entities, game);
        }
      } else {
        state := Idle;
        currentPath := None;
      }
    }
  }

  /** An entity that takes part in the enemies' turn: an Enemy still alive. */
  predicate IsActive(e: Entity)
    reads e
  {
    e.faction == EnemyFaction && e.health > 0
  }

  /** No entity occurs twice in the list. */
  predicate Distinct(entities: seq<Entity>) {
    forall i, j :: 0 <= i < j < |entities| ==> entities[i] != entities[j]
  }

  /** Two lists without repeats and without a common entity join into one
      without repeats. */
  lemma DistinctJoin(a: seq<Entity>, b: seq<Entity>)
    requires Distinct(a) && Distinct(b) && forall e :: e in b ==> e !in a
    ensures Distinct(a + b)
  {
    forall i, j | 0 <= i < j < |a + b|
      ensures (a + b)[i] != (a + b)[j]
    {
      if j < |a| {
        assert (a + b)[i] == a[i] && (a + b)[j] == a[j];
      } else if i < |a| {
        assert (a + b)[i] == a[i] && (a + b)[j] == b[j - |a|] && b[j - |a|] in b;
      } else {
        assert (a + b)[i] == b[i - |a|] && (a + b)[j] == b[j - |a|];
      }
    }
  }

  /** The positions of the living enemies in a list, in increasing order:
      every position listed holds one, and every one is listed. */
  ghost function ActiveIndices(entities: seq<Entity>): (r: seq<nat>)
    reads entities
    ensures forall k :: 0 <= k < |r| ==> r[k] < |entities| && IsActive(entities[r[k]])
    ensures forall k1, k2 :: 0 <= k1 < k2 < |r| ==> r[k1] < r[k2]
    ensures forall i :: 0 <= i < |entities| && IsActive(entities[i]) ==> i in r
  {
    if entities == [] then []
    else
      var n := |entities| - 1;
      ActiveIndices(entities[..n]) + (if IsActive(entities[n]) then [n] else [])
  }

  /** The living enemies of a list, in order (game.py:1056): the k-th is the
      entity at the k-th position ActiveIndices lists, so the list is the
      order-preserving filter of `entities` by IsActive. */
  function ActiveEnemies(entities: seq<Entity>): (r: seq<Entity>)
    reads entities
    ensures |r| == |ActiveIndices(entities)|
    ensures forall k :: 0 <= k < |r| ==> r[k] == entities[ActiveIndices(entities)[k]]
  {
    if entities == [] then []
    else
      var n := |entities| - 1;
      ActiveEnemies(entities[..n]) + (if IsActive(entities[n]) then [entities[n]] else [])
  }

  /** A filter of a list without repeats has no repeats. */
  lemma ActiveEnemiesDistinct(entities: seq<Entity>)
    requires Distinct(entities)
    ensures Distinct(ActiveEnemies(entities))
  {
    var r, idx := ActiveEnemies(entities), ActiveIndices(entities);
    forall k1, k2 | 0 <= k1 < k2 < |r| ensures r[k1] != r[k2] {
      assert idx[k1] < idx[k2];
    }
  }

  /** The Sight of the player from each enemy of a list. */
  function SightsOf(es: seq<Entity>, player: Entity, level: GameMap, entities: seq<Entity>): (r: seq<Sight>)
    requires level.Valid() && level.InBounds(player.x, player.y)
    reads es, player, entities, level.tiles
    ensures |r| == |es| && forall j :: 0 <= j < |es| ==> r[j] == es[j].SightOf(player, level, entities)
  {
    if es == [] then []
    else SightsOf(es[..|es| - 1], player, level, entities) + [es[|es| - 1].SightOf(player, level, entities)]
  }

  /** The state of each entity of a list. */
  function StatesOf(es: seq<Entity>): (r: seq<EntityState>)
    reads es
    ensures |r| == |es| && forall j :: 0 <= j < |es| ==> r[j] == es[j].State()
  {
    if es == [] then [] else StatesOf(es[..|es| - 1]) + [es[|es| - 1].State()]
  }

  /** One enemy's turn, given what it saw as the enemies' turn began
      (game.py:603-626): `d` is the health the player lost and `after` the
      enemy's state at its end. The player loses the enemy's attack power
      exactly when the enemy saw it and could strike it, and then the enemy
      is attacking where it stood, without a path; out of sight it is idle
      where it stood, without a path; seeing the player out of its attack
      range it is chasing. */
  predicate TurnOutcome(d: int, s: Sight, after: EntityState) {
    && d == (if s.sees && s.strikes then s.power else 0)
    && (!s.sees ==> after.IdleAt(s.at))
    && (s.sees && s.strikes ==> after.stats.state == Attacking && after.stats.currentPath == None && after.at == s.at)
    && (s.sees && !s.inRange ==> after.stats.state == Chasing)
  }

  class Game {
    var level: GameMap
    var player: Entity
    var entities: seq<Entity>
    var items: seq<Item>
    var messageLog: seq<Message>
    var currentFloor: int
    var gameState: GameState
    var playerTurn: bool

    /** The shape the game keeps while it is played: the player stands on
        the map, is the only entity of its faction in the entity list, and
        holds only a weapon as its weapon; no entity is listed twice; every
        enemy's stored path is in step with it. */
    ghost predicate Valid()
      reads this`level, this`player, this`entities, player, entities
    {
      && level.Valid() && level.InBounds(player.x, player.y)
      && player.faction == PlayerFaction && player in entities && player.GearOK()
      && (forall e :: e in entities && e.faction == PlayerFaction ==> e == player)
      && Distinct(entities)
      && (forall e :: e in entities && e.faction == EnemyFaction ==> e.PathInSync() && e.attackRangeTenths >= 10)
    }

    /** `new_game` (game.py:812-819) with the first `setup_floor`
        (game.py:841-863): floor 1 is generated, the player is created on
        its start cell, the enemies and items the spawners placed are added,
        and three welcome lines are logged. The spawners' random placement is
        not modelled: their results are the parameters. */
    constructor NewGame(rng: Random, spawnedEnemies: seq<Entity>, spawnedItems: seq<Item>)
      requires forall e :: e in spawnedEnemies ==> e.faction == EnemyFaction && e.currentPath == None && e.attackRangeTenths >= 10
      requires Distinct(spawnedEnemies)
      modifies rng
      ensures Valid() && fresh(level) && fresh(player)
      ensures currentFloor == 1 && level.dungeonLevel == 1 && gameState == Playing && playerTurn
      ensures player.x == level.playerStartX && player.y == level.playerStartY && level.IsWalkable(player.x, player.y)
      ensures player.health == PLAYER_START_HEALTH && player.inventory == [] && player.keys == 0
      ensures entities == [player] + spawnedEnemies && items == spawnedItems
      ensures messageLog == [SaveHelp, ControlsHelp, Welcome]
    {
      var newMap := NewFloor(1, rng);
      var hero := new Entity.Player(newMap.playerStartX, newMap.playerStartY);
      level, player := newMap, hero;
      DistinctJoin([hero], spawnedEnemies);
      entities := [hero] + spawnedEnemies;
      items := spawnedItems;
      // The three welcome lines, each added as AddMessage adds it.
      messageLog := PushMessage(PushMessage(PushMessage([], Welcome), ControlsHelp), SaveHelp);
      currentFloor := 1;
      gameState := Playing;
      playerTurn := true;
    }

    /** `add_message` (game.py:914-918). */
    method AddMessage(m: Message)
      modifies this`messageLog
      ensures messageLog == PushMessage(old(messageLog), m)
    {
      messageLog := [m] + messageLog;
      if |messageLog| > MESSAGE_LOG_MAX {
        messageLog := messageLog[..|messageLog| - 1];
      }
    }

    /** `next_floor` (game.py:822-838). The floor number rises by one. Past
        the last floor the game is won and nothing else changes. Otherwise
        the descent is logged, every entity but the player and every item
        on the ground are dropped, and the new floor is set up; play then
        resumes. */
    method NextFloor(rng: Random, spawnedEnemies: seq<Entity>, spawnedItems: seq<Item>)
      requires Valid()
      requires forall e :: e in spawnedEnemies ==> e.faction == EnemyFaction && e.currentPath == None && e.attackRangeTenths >= 10
      requires Distinct(spawnedEnemies)
      modifies this, player`x, player`y, rng
      ensures Valid() && currentFloor == old(currentFloor) + 1
      ensures player == old(player) && player.Stats() == old(player.Stats()) && player.keys == old(player.keys)
      ensures currentFloor > NUM_FLOORS ==>
        && gameState == Victory && level == old(level) && entities == old(entities) && items == old(items)
        && messageLog == old(messageLog) && playerTurn == old(playerTurn)
        && player.x == old(player.x) && player.y == old(player.y)
      ensures currentFloor <= NUM_FLOORS ==>
        && gameState == Playing && playerTurn && fresh(level) && level.dungeonLevel == currentFloor
        && player.x == level.playerStartX && player.y == level.playerStartY && level.IsWalkable(player.x, player.y)
        && entities == [player] + spawnedEnemies && items == spawnedItems
        && messageLog == PushMessage(old(messageLog), Descended(currentFloor))
    {
      currentFloor := currentFloor + 1;
      if currentFloor > NUM_FLOORS {
        gameState := Victory;
      } else {
        gameState := LevelTransition;
        AddMessage(Descended(currentFloor));
        entities := [player];
        items := [];
        SetupFloor(rng, spawnedEnemies, spawnedItems);
        gameState := Playing;
      }
    }

    /** `setup_floor` (game.py:841-863) for a game whose player exists: a
        new map for the current floor is generated, the player keeps
        everything but its position and stands on the map's start cell,
        which is walkable, the spawned enemies and items are added, and the
        player is to move. The player is always in the entity list already,
        so the source's re-insertion of a missing player (game.py:852-858)
        never fires. The spawners' random placement
        (game.py:866-912) is not modelled: their results are the
        parameters. */
    method SetupFloor(rng: Random, spawnedEnemies: seq<Entity>, spawnedItems: seq<Item>)
      requires Valid()
      requires forall e :: e in spawnedEnemies ==> e.faction == EnemyFaction && e.currentPath == None && e.attackRangeTenths >= 10
      requires Distinct(spawnedEnemies) && forall e :: e in spawnedEnemies ==> e !in entities
      modifies this`level, this`entities, this`items, this`playerTurn, player`x, player`y, rng
      ensures Valid() && fresh(level) && level.dungeonLevel == currentFloor && playerTurn
      ensures player.x == level.playerStartX && player.y == level.playerStartY && level.IsWalkable(player.x, player.y)
      ensures player.Stats() == old(player.Stats()) && player.keys == old(player.keys)
      ensures entities == old(entities) + spawnedEnemies && items == old(items) + spawnedItems
    {
      var newMap := NewFloor(currentFloor, rng);
      level := newMap;
      player.x, player.y := level.playerStartX, level.playerStartY;
      DistinctJoin(entities, spawnedEnemies);
      entities := entities + spawnedEnemies;
      items := items + spawnedItems;
      playerTurn := true;
    }

    /** The turn part of `update` (game.py:1046-1067). A dead player ends
        the game. On the enemies' turn the enemies act, as EnemyTurns says;
        then a dead player ends the game, and otherwise the turn passes back
        to the player. Enemies never change the map, and leave the player
        everything but its health, blocking flag and name. */
    method Update() returns (ghost turns: nat, ghost healths: seq<int>)
      requires Valid()
      modifies this, entities, level.tiles
      ensures Valid()
      ensures level == old(level) && player == old(player) && entities == old(entities) && items == old(items)
      ensures currentFloor == old(currentFloor)
      ensures player.Untouched() == old(player.Untouched())
      ensures forall i, j :: 0 <= i < level.width && 0 <= j < level.height ==> level.tiles[i, j] == old(level.tiles[i, j])
      ensures old(player.health) <= 0 ==>
        gameState == GameOver && playerTurn == old(playerTurn) && messageLog == old(messageLog)
      ensures old(player.health) > 0 && old(playerTurn) ==>
        gameState == old(gameState) && playerTurn && messageLog == old(messageLog)
      ensures old(player.health) > 0 && !old(playerTurn) ==>
        && (player.health <= 0 ==> gameState == GameOver && !playerTurn)
        && (player.health > 0 ==> gameState == old(gameState) && playerTurn)
      ensures !(old(player.health) > 0 && !old(playerTurn)) ==>
        turns == 0 && healths == [old(player.health)] && forall e :: e in entities ==> unchanged(e)
      ensures old(player.health) > 0 && !old(playerTurn) ==>
        EnemiesActed(old(ActiveEnemies(entities)), turns, healths)
    {
      turns, healths := 0, [player.health];
      if player.health <= 0 {
        gameState := GameOver;
      } else if !playerTurn {
        turns, healths := EnemyTurns();
        if player.health <= 0 {
          gameState := GameOver;
        } else {
          playerTurn := true;
        }
      }
    }

    /** The enemies' turn (game.py:1053-1059): the living enemies are
        listed, then take their turns as EnemiesActed says. */
    method EnemyTurns() returns (ghost turns: nat, ghost healths: seq<int>)
      requires Valid() && player.health > 0
      modifies entities, level.tiles, this`messageLog
      ensures Valid()
      ensures player.Untouched() == old(player.Untouched())
      ensures forall i, j :: 0 <= i < level.width && 0 <= j < level.height ==> level.tiles[i, j] == old(level.tiles[i, j])
      ensures EnemiesActed(old(ActiveEnemies(entities)), turns, healths)
    {
      var active := ActiveEnemies(entities);
      ActiveEnemiesDistinct(entities);
      // What each listed enemy sees of the player as the loop begins.
      ghost var sights, states := SightsOf(active, player, level, entities), StatesOf(active);
      turns, healths := TurnsOf(active, sights, states);
    }

    /** The loop over the listed enemies (game.py:1057-1059): each takes its
        turn while the player lives, as TurnOutcome says of what it saw as
        the loop began. `sights` are what they see of the player, and
        `states` what they are, at that point. */
    method TurnsOf(active: seq<Entity>, ghost sights: seq<Sight>, ghost states: seq<EntityState>)
      returns (ghost turns: nat, ghost healths: seq<int>)
      requires Valid() && player.health > 0 && Distinct(active)
      requires forall k :: 0 <= k < |active| ==> active[k] in entities && active[k].faction == EnemyFaction
      requires |sights| == |active| && forall j {:trigger sights[j]} :: 0 <= j < |active| ==>
        sights[j] == active[j].SightOf(player, level, entities)
      requires |states| == |active| && forall j :: 0 <= j < |active| ==> states[j] == active[j].State()
      modifies entities, level.tiles, this`messageLog
      ensures Valid()
      ensures player.Untouched() == old(player.Untouched())
      ensures forall i, j :: 0 <= i < level.width && 0 <= j < level.height ==> level.tiles[i, j] == old(level.tiles[i, j])
      ensures turns <= |active| && (turns < |active| ==> player.health <= 0)
      ensures |healths| == turns + 1 && healths[0] == old(player.health) && healths[turns] == player.health
      ensures forall j :: 0 <= j < turns ==> TurnOutcome(healths[j] - healths[j + 1], sights[j], active[j].State())
      ensures forall j :: turns <= j < |active| ==> active[j].State() == old(active[j].State())
      ensures forall o :: o in entities && o != player && o !in active ==> o.State() == old(o.State())
    {
      ghost var start := player.Untouched();
      turns, healths := 0, [player.health];
      for k := 0 to |active|
        invariant Valid() && player.Untouched() == start
        invariant TurnsSoFar(active, sights, states, k, turns, healths) && healths[0] == old(player.health)
        invariant forall i, j :: 0 <= i < level.width && 0 <= j < level.height ==> level.tiles[i, j] == old(level.tiles[i, j])
        invariant forall o :: o in entities && o != player && o !in active ==> o.State() == old(o.State())
      {
        turns, healths := NextTurn(active, sights, states, k, turns, healths);
      }
    }

    /** The first k listed enemies have had their turns, `turns` of them
        while the player lived, each as TurnOutcome says of what it saw
        (`sights`), losing the player the health recorded in `healths`; the
        enemies yet to act are as they were (`states`), and while the player
        lives they still see what they saw. */
    ghost predicate TurnsSoFar(active: seq<Entity>, sights: seq<Sight>, states: seq<EntityState>, k: nat, turns: nat, healths: seq<int>)
      requires level.Valid() && level.InBounds(player.x, player.y)
      reads this`player, this`level, this`entities, player, level, level.tiles, active, entities
    {
      && |sights| == |active| && |states| == |active| && k <= |active|
      && turns <= k && (turns < k ==> player.health <= 0)
      && |healths| == turns + 1 && healths[turns] == player.health
      && (forall j :: 0 <= j < turns ==> TurnOutcome(healths[j] - healths[j + 1], sights[j], active[j].State()))
      && (forall j :: turns <= j < |active| ==> active[j].State() == states[j])
      && (player.health > 0 ==> forall j :: k <= j < |active| ==> sights[j] == active[j].SightOf(player, level, entities))
    }

    /** The body of that loop for the k-th listed enemy: its turn, as
        EnemyAct says, carries TurnsSoFar from k to k + 1 (spelled out in
        the ensures), and leaves the map, the player's position and gear,
        and every entity off the list as they were. */
    method NextTurn(active: seq<Entity>, ghost sights: seq<Sight>, ghost states: seq<EntityState>, k: nat, ghost turns: nat, ghost healths: seq<int>)
      returns (ghost turns': nat, ghost healths': seq<int>)
      requires Valid() && Distinct(active) && k < |active|
      requires forall j :: 0 <= j < |active| ==> active[j] in entities && active[j].faction == EnemyFaction
      requires TurnsSoFar(active, sights, states, k, turns, healths)
      modifies entities, level.tiles, this`messageLog
      ensures Valid() && player.Untouched() == old(player.Untouched())
      ensures |sights| == |active| && |states| == |active| && k + 1 <= |active|
      ensures turns' <= k + 1 && (turns' < k + 1 ==> player.health <= 0)
      ensures |healths'| == turns' + 1 && healths'[turns'] == player.health
      ensures forall j :: 0 <= j < turns' ==> TurnOutcome(healths'[j] - healths'[j + 1], sights[j], active[j].State())
      ensures forall j :: turns' <= j < |active| ==> active[j].State() == states[j]
      ensures player.health > 0 ==> forall j :: k + 1 <= j < |active| ==> sights[j] == active[j].SightOf(player, level, entities)
      ensures healths'[0] == healths[0]
      ensures forall i, j :: 0 <= i < level.width && 0 <= j < level.height ==> level.tiles[i, j] == old(level.tiles[i, j])
      ensures forall o :: o in entities && o != player && o !in active ==> o.State() == old(o.State())
    {
      turns', healths' := turns, healths;
      ghost var before := player.health;
      var _ := EnemyAct(active[k]);
      if before > 0 {
        healths' := healths + [player.health];
        turns' := turns + 1;
      }
    }

    /** The outcome of the enemies' turn: the living enemies are listed in
        order, and each acts while the player lives: `turns` of them act,
        all of them unless the player dies. `healths` is the player's health
        before the first and after each of those turns, and the j-th turn
        went as TurnOutcome says of what that enemy saw as the enemies' turn
        began: the player lost its attack power exactly when it saw the
        player and could strike it. The rest of the listed enemies, and
        every entity neither listed nor the player, are not touched. */
    twostate predicate EnemiesActed(active: seq<Entity>, turns: nat, healths: seq<int>)
      requires old(Valid())
      reads this`entities, this`player, this`level, player, entities, active
    {
      && entities == old(entities) && player == old(player) && level == old(level)
      && turns <= |active| && (turns < |active| ==> player.health <= 0)
      && |healths| == turns + 1 && healths[0] == old(player.health) && healths[turns] == player.health
      && (forall j :: 0 <= j < turns ==>
            TurnOutcome(healths[j] - healths[j + 1], old(active[j].SightOf(player, level, entities)), active[j].State()))
      && (forall j :: turns <= j < |active| ==> active[j].State() == old(active[j].State()))
      && (forall o :: o in entities && o != player && o !in active ==> o.State() == old(o.State()))
    }

    /** One enemy's step of the enemy turn (game.py:1057-1059): it acts
        only while the player lives, and then as TakeTurn says, which is
        TurnOutcome of what it saw. The map, the player's position, gear and
        stats, the game's own fields and every other enemy are kept, and
        while the player lives every other enemy still sees what it saw. */
    method EnemyAct(e: Entity) returns (ghost followed: Option<seq<Cell>>)
      requires Valid() && e in entities && e.faction == EnemyFaction
      modifies entities, level.tiles, this`messageLog
      ensures Valid()
      ensures player.Untouched() == old(player.Untouched())
      ensures forall i, j :: 0 <= i < level.width && 0 <= j < level.height ==> level.tiles[i, j] == old(level.tiles[i, j])
      ensures forall o :: o in entities && o != e && o.faction == EnemyFaction ==> o.State() == old(o.State())
      ensures player.health > 0 ==> forall o :: o in entities && o != e && o.faction == EnemyFaction ==>
        o.SightOf(player, level, entities) == old(o.SightOf(player, level, entities))
      // A dead player: nothing happens.
      ensures old(player.health) <= 0 ==>
        (forall o :: o in entities ==> o.State() == old(o.State())) && messageLog == old(messageLog)
      // A living player: TakeTurn's outcome.
      ensures old(player.health) > 0 ==>
        TurnOutcome(old(player.health) - player.health, old(e.SightOf(player, level, entities)), e.State())
      ensures old(player.health > 0 && !e.Sees(player, level)) ==> messageLog == old(messageLog)
      ensures old(player.health > 0 && e.Sees(player, level) && e.CanStrike(player, level, entities)) ==>
        e.Struck(player, this)
      ensures old(player.health > 0 && e.Sees(player, level)
                  && !WithinRange(Chebyshev(e.x, e.y, player.x, player.y), e.attackRangeTenths)) ==>
        && messageLog == old(messageLog)
        && (followed.None? ==> (e.x, e.y) == old((e.x, e.y)) && e.currentPath == None)
        && (followed.Some? ==> e.SteppedAlong(followed.value, level, entities))
    {
      followed := None;
      if player.health > 0 {
        ghost var px, py := player.x, player.y;
        followed := e.TakeTurn(player, level, entities, this);
        if player.health > 0 && player in entities && BlocksAt(player, px, py) {
          // The player blocked its cell before too, so the enemy did not step
          // onto it, and did not step off it either: every entity blocks the
          // player's cell as it did, and the first blocker there is the same.
          assert old(BlocksAt(player, px, py));
          forall j | 0 <= j < |entities|
            ensures BlocksAt(entities[j], px, py) == old(BlocksAt(entities[j], px, py))
          {
            if entities[j] != e && entities[j] != player {
              assert entities[j].faction == EnemyFaction;
            }
          }
          ghost var now, before := BlockingIndexAt(entities, px, py), old(BlockingIndexAt(entities, px, py));
          if now.Some? && before.Some? {
            assert !(now.value < before.value) && !(before.value < now.value);
          }
        }
      }
    }

    /** Whether the command takes the player's turn in `events`
        (game.py:1010-1023), judged on the game before it: waiting always
        does, saving, an unknown key and a zero move never do, and a move, a
        pick-up or an item use does exactly when `move`, `pick_up_item` or
        `use_item` returns True. */
    predicate TakesTurn(cmd: Command)
      requires Valid()
      reads this, player, entities, level.tiles
    {
      match cmd
      case MoveBy(dx, dy) => (dx != 0 || dy != 0) && player.MoveTakesTurn(dx, dy, level, entities)
      case PickUp => player.PickUpTakesTurn(items)
      case UseSlot(index) => player.UseTakesTurn(index)
      case Wait => true
      case SaveGame => false
      case NoCommand => false
    }

    /** The action part of the player's turn in `events`
        (game.py:1010-1023) for one decoded command: a move or bump, a
        pick-up, waiting, saving or an item use. Waiting always takes the
        turn; saving, an unknown key and a zero move never do and change
        nothing. Only a move changes the player's position, by exactly the
        command's offset when it does. The floor, the game state and whose
        turn it is are left to the caller. */
    method PlayerAction(cmd: Command) returns (acted: bool)
      requires Valid()
      modifies player, entities, level.tiles, this`items, this`messageLog
      ensures Valid()
      ensures acted == old(TakesTurn(cmd))
      ensures cmd.Wait? ==> acted
      ensures cmd.SaveGame? || cmd.NoCommand? || cmd == MoveBy(0, 0) ==>
        && !acted && messageLog == old(messageLog) && items == old(items)
        && player.Stats() == old(player.Stats()) && player.keys == old(player.keys)
      ensures (player.x, player.y) == old((player.x, player.y))
        || (cmd.MoveBy? && acted && (player.x, player.y) == old((player.x + cmd.dx, player.y + cmd.dy)))
      ensures cmd.MoveBy? && (cmd.dx != 0 || cmd.dy != 0) ==>
        player.MoveOutcome(cmd.dx, cmd.dy, level, entities, this, acted)
      ensures cmd.PickUp? ==> player.PickUpOutcome(this, acted)
      ensures cmd.UseSlot? ==> player.UseOutcome(cmd.index, this, acted)
    {
      acted := false;
      match cmd {
        case MoveBy(dx, dy) =>
          if dx != 0 || dy != 0 {
            acted := MovePlayer(dx, dy);
          }
        case PickUp =>
          acted := PlayerPickUp();
        case Wait =>
          acted := true;
        case SaveGame =>
          // Writing the save file is not modelled; saving does not take the turn.
        case UseSlot(index) =>
          acted := PlayerUseItem(index);
        case NoCommand =>
      }
    }

    /** The player's move by (dx, dy) (game.py:1010-1012): the player
        either stays or steps by exactly the offset, and the game keeps its
        shape, since an enemy the player attacks keeps its position and
        path. */
    method MovePlayer(dx: int, dy: int) returns (acted: bool)
      requires Valid()
      modifies player, entities, level.tiles, this`messageLog
      ensures Valid()
      ensures player.MoveOutcome(dx, dy, level, entities, this, acted)
      ensures acted == old(player.MoveTakesTurn(dx, dy, level, entities))
      ensures (player.x, player.y) == old((player.x, player.y))
        || (acted && (player.x, player.y) == old((player.x + dx, player.y + dy)))
    {
      acted := player.Move(dx, dy, level, entities, this);
    }

    /** The pick-up command (game.py:1013-1015): the player stays put and
        keeps the gear invariant. */
    method PlayerPickUp() returns (acted: bool)
      requires Valid()
      modifies player, this`items, this`messageLog
      ensures Valid() && player.x == old(player.x) && player.y == old(player.y)
      ensures player.PickUpOutcome(this, acted)
      ensures acted == old(player.PickUpTakesTurn(items))
    {
      acted := player.PickUpItem(this);
    }

    /** The use-item command (game.py:1020-1022): the player stays put and
        keeps the gear invariant. */
    method PlayerUseItem(index: int) returns (acted: bool)
      requires Valid()
      modifies player, this`messageLog
      ensures Valid() && player.x == old(player.x) && player.y == old(player.y)
      ensures player.UseOutcome(index, this, acted)
      ensures acted == old(player.UseTakesTurn(index))
    {
      acted := player.UseItem(index, this);
    }

    /** What follows the player's action (game.py:1025-1033): a turn taken
        on the stairs descends, and a turn taken while still playing hands
        the turn to the enemies. An action that took no turn changes nothing
        here. */
    method EndPlayerTurn(acted: bool, rng: Random, spawnedEnemies: seq<Entity>, spawnedItems: seq<Item>)
      requires Valid() && gameState == Playing && playerTurn
      requires forall e :: e in spawnedEnemies ==> e.faction == EnemyFaction && e.currentPath == None && e.attackRangeTenths >= 10
      requires Distinct(spawnedEnemies)
      modifies this, player`x, player`y, rng
      ensures Valid()
      ensures !acted ==> unchanged(this) && unchanged(player)
      ensures acted ==> (gameState == Playing <==> !playerTurn)
      ensures currentFloor != old(currentFloor) ==>
        acted && currentFloor == old(currentFloor) + 1 && (gameState == Victory <==> currentFloor > NUM_FLOORS)
      ensures currentFloor == old(currentFloor) ==>
        && gameState == Playing && level == old(level) && entities == old(entities) && items == old(items)
        && messageLog == old(messageLog) && unchanged(player)
        && (acted ==> (player.x, player.y) != (level.stairsX, level.stairsY))
    {
      if acted && player.x == level.stairsX && player.y == level.stairsY {
        NextFloor(rng, spawnedEnemies, spawnedItems);
      }
      if acted && gameState == Playing {
        playerTurn := false;
      }
    }

    /** The player's turn in `events` (game.py:992-1033) while the game is
        being played. Outside the player's turn, or outside play, nothing
        happens. Otherwise the command is carried out; when it took the turn
        with the player on the stairs, the game goes to the next floor, and
        when the game is still being played afterwards the turn passes to
        the enemies. */
    method PlayerTurn(cmd: Command, rng: Random, spawnedEnemies: seq<Entity>, spawnedItems: seq<Item>)
      returns (acted: bool)
      requires Valid()
      requires forall e :: e in spawnedEnemies ==>
        e.faction == EnemyFaction && e.currentPath == None && e.attackRangeTenths >= 10 && e !in entities
      requires Distinct(spawnedEnemies)
      modifies this, player, entities, level.tiles, rng
      ensures Valid()
      ensures acted == old(gameState == Playing && playerTurn && TakesTurn(cmd))
      ensures !(old(gameState) == Playing && old(playerTurn)) ==>
        && !acted && gameState == old(gameState) && playerTurn == old(playerTurn)
        && currentFloor == old(currentFloor) && messageLog == old(messageLog)
      ensures old(gameState) == Playing && old(playerTurn) ==>
        && (cmd.Wait? ==> acted)
        && (cmd.SaveGame? || cmd.NoCommand? || cmd == MoveBy(0, 0) ==> !acted && messageLog == old(messageLog))
      ensures !acted ==> playerTurn == old(playerTurn) && currentFloor == old(currentFloor) && gameState == old(gameState)
      ensures acted ==> (gameState == Playing <==> !playerTurn)
      ensures currentFloor != old(currentFloor) ==>
        acted && currentFloor == old(currentFloor) + 1 && (gameState == Victory <==> currentFloor > NUM_FLOORS)
      ensures acted && currentFloor == old(currentFloor) ==> (player.x, player.y) != (level.stairsX, level.stairsY)
      // Walking into a closed door with no key takes no turn: the door stays
      // shut, the player stays put and is told the door is locked.
      ensures old(gameState == Playing && playerTurn) && cmd.MoveBy? && (cmd.dx != 0 || cmd.dy != 0) &&
              old(player.LockedOut(player.x + cmd.dx, player.y + cmd.dy, level)) ==>
        && !acted && playerTurn && level == old(level)
        && player.x == old(player.x) && player.y == old(player.y) && player.keys == old(player.keys)
        && messageLog == PushMessage(old(messageLog), DoorLocked)
        && forall i, j :: 0 <= i < level.width && 0 <= j < level.height ==> level.tiles[i, j] == old(level.tiles[i, j])
    {
      acted := false;
      if gameState == Playing && playerTurn {
        acted := PlayerAction(cmd);
        EndPlayerTurn(acted, rng, spawnedEnemies, spawnedItems);
      }
    }
  }
}
