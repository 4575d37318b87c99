# A verified model of a pygame roguelike's engine

`game.py` is a single-file roguelike. The player walks a tile grid and
descends three floors of a dungeon generated by binary space partitioning
(BSP). Goblins and orcs chase the player with a breadth-first pathfinder.
The player picks up potions, swords and keys, and opens locked doors.

This project models the engine in Dafny:

- the tile grid;
- the BSP carving of rooms, corridors and doors;
- the pathfinder;
- the entity rules (moving, bump attacks, damage and death, healing,
  items, keys);
- the enemy AI;
- the message log;
- the game's turn logic (the player's command, the enemies' sweep,
  game over and descending a floor).

The model is split into four modules:

| module | file | content |
|---|---|---|
| `Common` | `common.dfy` | the game's constants, `Cell`, `Rect` and `Option`; the random source as a `Random` class over a stream of raw draws |
| `Dungeon` | `dungeon.dfy` | `Tile`; the `GameMap` class over an `array2<Tile>` indexed `[x, y]`; carving; `generate_bsp`; the BFS; the `BSPLeaf` class |
| `Rules` | `rules.dfy` | the value-level rules: the message log, healing, items and `get_item_at`, the grid distance, the enemy's one-step direction, floor scaling |
| `World` | `world.dfy` | the `Entity` class (player and enemies, told apart by a faction) and the `Game` class |

Code that updates state in place is modelled as classes and methods:

- the tile array, the map's room list, the BSP nodes' children and rooms;
- the entity fields, the inventory, the ground items and the message log.

Each such method's `modifies` clause names what it may change. Its
`ensures` say what the new state is. For most methods that is the whole new
state in terms of the old one. For the enemy AI, the enemies' sweep, the
player's command dispatch and the corridor step it is the outcome the
source promises, stated through a predicate such as `MoveOutcome`,
`SteppedAlong`, `Struck` or `EnemiesActed`. Where a method has a loop, the
loop carries its invariants.

The pure parts are functions with lemmas. Those are the lookups, the
distance and the arithmetic.

Randomness is a `Random` object. It holds a fixed stream `source: nat -> nat`
and a cursor `drawn`. Each `random.randint`, `random.choice` or
`random.random() < p` call consumes exactly one draw. `RandInt` and `Chance`
state which draw they consumed and what it gives, and `Split` states how its
first draw picks the axis. The other users of randomness (`GetRoom`,
`ChooseRoom`, `TryPlaceDoor`, `ConnectRooms`) state properties that hold
whatever their draws are, without naming them. So every property holds for
every sequence of random outcomes.

The dungeon's connectivity is stated over the set of walkable cells.
`Connected(open, a, b)` says a walk of 8-neighbours over `open` leads from
`a` to `b`. `Joined(open, rooms, lo, hi)` says the centre of every room in
`rooms[lo..hi]` is connected to the centre of `rooms[lo]`. A subtree's room
is identified as the room of a node below it in the tree (`RoomBelow`).
`ReachedFrom(open, before, hub)` says every cell of `open` that was not in
`before` is connected to `hub`: carving functions state which cells they
opened, and generation then proves that every cell it opened hangs off the
player's start.

## Model

| member | source | states |
|---|---|---|
| Common.RandIntOf | game.py:340 | `random.randint(lo, hi)` as a function of one raw draw: the value lies in `lo..hi` inclusive |
| Common.RandIntOfOnto | game.py:364-367 | every value of `lo..hi` is produced by some draw, so modelling `randint` this way loses no outcome |
| Common.Random.RandInt | game.py:340 | consumes exactly one draw, and the result is RandIntOf of that draw, in range |
| Common.Random.Chance | game.py:211 | `random.random() < p/100` consumes exactly one draw, and the result is ChanceOf of that draw |
| Dungeon.AdjacentIsOffset | game.py:300-304 | two 8-neighbours differ by one of the eight offsets the neighbour loop tries |
| Dungeon.ConnectedTrans | game.py:390-400 | two walks over open cells joined end to start make a walk, so corridors chain rooms together |
| Dungeon.ConnectedSym | game.py:390-400 | a walk over open cells read backwards is a walk back, so a corridor joins its rooms both ways |
| Dungeon.RowConnected | game.py:159-165 | an open run along a row joins its two ends |
| Dungeon.ColumnConnected | game.py:168-174 | an open run along a column joins its two ends |
| Dungeon.JoinedGrow | game.py:353-361 | rooms joined over some open cells stay joined when more cells open and more rooms are appended |
| Dungeon.JoinedMerge | game.py:358-361 | two joined runs of rooms and a walk between a room of each make one joined run |
| Dungeon.ReachedChain | game.py:353-361 | three rounds of opened cells, each joined to its own hub, are all joined to the first hub once the other two hubs are joined to it |
| Dungeon.RoomReached | game.py:151-157 | when a room's interior is open and every newly opened cell lies in that interior, every newly opened cell is joined to the room's centre |
| Dungeon.GameMap.constructor | game.py:123-137 | a `width` x `height` grid of blocked wall tiles with the given dungeon level |
| Dungeon.GameMap.RevealView | game.py:252-263 | `draw`'s side effect: every cell of the drawn view (one cell of margin before, two after, clipped to the grid) that `is_visible_tile` accepts is marked explored; no other field and no other cell changes, and no flag is cleared |
| Dungeon.GameMap.CreateRoom | game.py:151-157 | exactly the interior cells `x+1..x+w-1`, `y+1..y+h-1` become unblocked floor; every other tile is unchanged, so every newly walkable cell lies in that interior |
| Dungeon.GameMap.TryPlaceDoor | game.py:176-213 | either nothing changes, or exactly one tile changes: an orthogonal neighbour that was a wall with no door beside it becomes a blocked closed door, and this happens only when the carved cell meets the entrance heuristic |
| Dungeon.GameMap.CarveCell | game.py:161-165 | one tunnel step: the cell becomes unblocked floor; any other tile is unchanged or was a wall and is now a closed door; walls stay blocking |
| Dungeon.GameMap.CreateHTunnel | game.py:159-165 | every cell of the inclusive row run is unblocked floor; every other tile is unchanged, or was a wall and is now a closed door; every newly walkable cell lies on the run; walls stay blocking and no walkable tile is closed |
| Dungeon.GameMap.CreateVTunnel | game.py:168-174 | the column counterpart of CreateHTunnel: every newly walkable cell lies on the column run |
| Dungeon.GameMap.CorridorConnects | game.py:390-400 | either carved L-shaped corridor between two cells joins them by a walk over the walkable cells |
| Dungeon.GameMap.CorridorReached | game.py:390-400 | when a carved L-shaped corridor from a to b is the only place cells were opened, every newly opened cell is joined to a |
| Dungeon.GameMap.ConnectedReachable | game.py:286-313 | a walk over the walkable cells is a walk the pathfinder accepts, so its end is not unreachable |
| Dungeon.GameMap.ReachedReachable | game.py:286-313 | every cell opened since `before` and joined to s over the walkable cells can be reached by the pathfinder from s |
| Dungeon.GameMap.JoinedReachable | game.py:236-244 | when every room is joined to the first, the first room's centre is walkable and the pathfinder can reach every room's centre from it |
| Dungeon.GameMap.BuildRooms | game.py:216-230 | the room list is rebuilt from empty: at least one room, each inside the map and at least 5x5 with its interior walkable; every room is joined to the first by walkable cells, and so is every cell opened on the way; walls stay blocking and open tiles stay open |
| Dungeon.GameMap.PlaceStairs | game.py:244 | the stairs tile is written at the cell and no other tile changes; the walkable cells become the old ones plus the stairs cell; walls stay blocking, open tiles stay open and carved rooms stay carved |
| Dungeon.GameMap.GenerateBsp | game.py:216-248 | at least one room, each inside the map and at least 5x5, with its interior walkable; the start is the centre of the first room; the stairs tile sits at the centre of the last room; start and stairs are walkable; every cell the generation made walkable is joined to the start, and the pathfinder can reach it, the stairs and every room's centre from the start; walls stay blocking and open tiles stay open |
| Dungeon.GameMap.PlaceEnds | game.py:232-244 | the start is the centre of the first room and the stairs tile replaces the centre of the last; that cell was already walkable, so the walkable cells are the same; the pathfinder reaches every room's centre, the stairs and every cell opened since `before` from the start |
| Dungeon.GameMap.GetPath | game.py:286-313 | a path is returned only when both ends are walkable; it leaves the start out, every step is walkable and an 8-neighbour of the one before, it ends at the goal, and no walk from the start to the goal is shorter. None means an end is unwalkable or no walk joins them. start == goal gives `[]` |
| Dungeon.GameMap.SearchRound | game.py:294-311 | one round of the loop when the head is not the goal: the head is taken off and its neighbours queued; the loop's state (Searching: walks queued, breadth-first order, shortest queued paths, every shorter walk ending at a finished cell) holds again, and fewer cells are left unseen or the queue is shorter |
| Dungeon.GameMap.SearchStart | game.py:291-292 | the queue holding only the start with the empty path, and the start alone visited, satisfy the loop's state |
| Dungeon.GameMap.SearchFound | game.py:297-298 | a head at the goal holds a walk from the start to the goal that no walk is shorter than, and the empty walk when start and goal coincide |
| Dungeon.GameMap.SearchExhausted | game.py:294-313 | when the queue runs out, no walk from the start reaches the goal |
| Dungeon.GameMap.SearchPopped | game.py:295 | with the head taken off, the rest of the queue is in the head's layer, still holds shortest walks, and every visited cell but the head and the finished ones is queued |
| Dungeon.GameMap.SearchStep | game.py:301-311 | once the head's neighbours are queued, the loop's state holds again with the head finished |
| Dungeon.GameMap.LevelAdvance | game.py:294-311 | after a cell is expanded, every walk shorter than the new head's path ends at a finished cell: a walk as long as the old layer ends at a seen cell, and a queued cell cannot sit in a later layer than its shortest walk |
| Dungeon.GameMap.ShortestAppend | game.py:308-311 | a cell first seen while expanding a path of the current layer is reached by no walk shorter than that path plus one step |
| Dungeon.GameMap.ShortWalkSeen | game.py:308-309 | a walk no longer than the current layer ends at a visited cell, because its last-but-one cell is finished and all walkable neighbours of finished cells are visited |
| Dungeon.LayeredAppend | game.py:311 | appending a path one longer than the layer keeps the queue in breadth-first order |
| Dungeon.LayeredPop | game.py:295 | taking off the head leaves the rest of the queue within the head's layer and its successor |
| Dungeon.GameMap.ExpandNeighbours | game.py:300-311 | one BFS expansion: every walkable, unvisited 8-neighbour is marked visited and queued with its path extended by one step; the queue keeps its walks, stays in breadth-first order and keeps every queued path a shortest walk to its cell |
| Dungeon.GameMap.WalkStaysInside | game.py:293-313 | a walk from the start never leaves a visited set closed under walkable neighbours, so an exhausted queue means the goal is unreachable |
| Dungeon.GameMap.WalkExtend | game.py:306-311 | a walk extended by a walkable 8-neighbour of its end is still a walk |
| Dungeon.GameMap.WalkIsChain | game.py:301-310 | every walk is a chain of 8-neighbours starting next to its start |
| Dungeon.NewFloor | game.py:843-844 | a fresh 80x60 map for the floor, generated, with the start walkable, the stairs tile on the map, and every walkable cell of the floor reachable by the pathfinder from the start |
| Dungeon.SplitAll | game.py:221-230 | the splitting loop ends (the weight `2wh-1` summed over the queue drops each round); the result is a well-formed tree of fresh, roomless nodes covering the map, every node at least 7 on each side, children inside and apart from each other |
| Dungeon.SplitFirst | game.py:227-230 | one round: the first queued node is split, its children queued on success; the tree stays well-formed and the queue's weight drops |
| Dungeon.SplitWeight | game.py:340-347 | two halves of a node weigh less than the node, which is why the splitting loop ends |
| Dungeon.ListedRooms | game.py:372-374 | every room held by a node of a subtree is in the map's room list |
| Dungeon.NoRoomWithinBeside | game.py:353-357 | once the first child's rooms are added, no listed room lies inside the second child, since the children are apart |
| Dungeon.JoinChildRuns | game.py:353-361 | the rooms of the first child, the rooms of the second, and a walk between a room of each make one joined run of the node's rooms, with the second child's first room joined to the node's first |
| Dungeon.ChildRunsInside | game.py:353-357 | the rooms both children added lie inside the node and keep their interiors walkable |
| Dungeon.BSPLeaf.constructor | game.py:318-323 | a node with the given extent, no children and no room |
| Dungeon.BSPLeaf.Split | game.py:325-349 | with children already present, fails and draws nothing; otherwise it splits exactly when the cut side minus 10 is at least 10, on the axis the first draw picks; the two fresh children tile the node along that axis, lie apart, are at least 10 each way, and keep the tree well-formed |
| Dungeon.BSPLeaf.Divide | game.py:342-347 | the cut at `pos`: two fresh, empty children tile the node, the first `pos` wide or high, and the tree stays well-formed with them added |
| Dungeon.BSPLeaf.HasRoomUnfold | game.py:376-388 | a subtree holds a room exactly when its root does or one of its children's subtrees does, the case split `get_room` follows |
| Dungeon.BSPLeaf.GetRoom | game.py:376-388 | returns the node's own room when it has one; otherwise the room of some node of its subtree; None exactly when the subtree has no room; the room lies in the node and is at least 5x5 |
| Dungeon.BSPLeaf.ConnectRooms | game.py:390-400 | one of the two L-shaped corridors between the room centres is fully carved, and every newly walkable cell lies on that corridor; walls stay blocking and walkable tiles stay walkable |
| Dungeon.BSPLeaf.ChooseRoom | game.py:364-367 | the drawn room is at least 5x5, starts at least the padding in from the leaf's corner and lies inside the leaf, even when the leaf is too small for the padding on both sides |
| Dungeon.BSPLeaf.PlaceRoom | game.py:364-374 | exactly one room is appended and given to the leaf; it lies inside the leaf and is at least 5x5; its interior is walkable and every newly walkable cell is joined to its centre; other nodes' rooms and open tiles are kept |
| Dungeon.BSPLeaf.ConnectChildren | game.py:357-361 | the room taken from each child is a room of that child's subtree, and is None exactly when the subtree has none; when both exist, the corridor joins their centres by walkable cells and every newly walkable cell is joined to the first centre; walls stay blocking and walkable tiles stay walkable |
| Dungeon.BSPLeaf.JoinChildren | game.py:357-361 | with each child's rooms a joined run inside that child, and each child's opened cells joined to its first room, the corridor makes all the node's new rooms one joined run inside the node, with every cell opened for the node joined to its first new room |
| Dungeon.BSPLeaf.CreateRooms | game.py:351-374 | the subtree gets at least one room; its new rooms are appended after the old ones, each inside the node and at least 5x5 with an open interior, and all of them are joined to one another by walkable cells; every cell the subtree opened is joined to its first new room; earlier rooms are kept, walls stay blocking and walkable tiles stay walkable |
| Dungeon.BSPLeaf.CreateChildRooms | game.py:353-361 | CreateRooms' contract for a node with children: each child's subtree gets its rooms and a corridor joins a room of each, so the node's new rooms and opened cells hang off its first new room |
| Dungeon.BSPLeaf.CreateSecondRooms | game.py:356-361 | once the first child's rooms form a joined run with its opened cells joined to its first room, the second child's rooms and the corridor extend both to the whole node |
| Rules.PushMessage | game.py:914-918 | the new message is first; the older ones follow in order; the log grows by one up to 6 entries, after which the oldest is dropped |
| Rules.PushAllKeepsNewest | game.py:914-918 | after any run of messages, a log within its bound holds exactly the 6 newest messages, newest first |
| Rules.HealAmount | game.py:473-477 | the amount restored is `min(amount, max - health)`: at most the amount, never above the maximum, and equal to one of the two |
| Rules.HealStaysWithinMax | game.py:473-477 | healing keeps health within `[health, max]`, and restores something exactly when health is below the maximum and the amount is positive |
| Rules.ItemAt | game.py:1276-1281 | the index of the first item at (x, y); None exactly when no item lies there |
| Rules.RemoveAt | game.py:510 | `list.remove`: one occurrence leaves the list and the rest keep their order |
| Rules.FirstAtIsFirstEqual | game.py:505-515 | no earlier item equals the first item found at a position, so removing by that index equals `items.remove(item)` |
| Rules.Chebyshev | game.py:105-107 | `max(abs dx, abs dy)`: non-negative and equal to the larger offset |
| Rules.ChebyshevOneIsAdjacent | game.py:105-107 | distance 1 holds exactly for 8-neighbours, and distance 0 exactly for the same cell |
| Rules.DefaultRangeIsAdjacency | game.py:607 | with the default range of 1.5, `dist <= range` holds exactly when `dist <= 1` |
| Rules.Sign | game.py:612-613 | the normalised step is -1, 0 or 1, is 0 exactly for 0, and has the sign of d |
| Rules.SignStepCloses | game.py:609-614 | an enemy's normalised step lowers the Chebyshev distance to the player by exactly one |
| Rules.SignStepReaches | game.py:609-617 | the normalised step lands on the player exactly when the player is at most one cell away, and never moves more than one cell |
| Rules.FloorHealth | game.py:883-884 | enemy health on a floor is never below the base |
| Rules.FloorAttack | game.py:885 | enemy attack on a floor lies between the base and the base plus the floor |
| Rules.FloorDiv | game.py:885 | Python's `//` for a positive divisor: the largest quotient whose product does not exceed the dividend |
| Rules.ScalingMonotone | game.py:883-885 | deeper floors never give weaker enemies |
| World.BlockingIndexAt | game.py:1269-1274 | the index of the first entity that blocks, stands at (x, y) and is alive; None exactly when there is none |
| World.DeadNeverBlocks | game.py:1269-1274 | a dead or non-blocking entity is never returned |
| World.Entity.Player | game.py:495-501 | the player starts with 100 health, 10 attack, an empty inventory, no keys and no weapon |
| World.Entity.Goblin | game.py:653-656 | base health and attack, sight 8, range 1.5, idle with no path |
| World.Entity.Orc | game.py:658-661 | double health, attack +2, sight 7, range 1.5, idle with no path |
| World.Entity.Die | game.py:465-470 | logs the death under the old name; the entity stops blocking and is renamed to its remains |
| World.Entity.TakeDamage | game.py:452-457 | health drops by exactly the amount, and death happens exactly when health reaches 0 or below |
| World.Entity.Attack | game.py:459-463 | the target loses exactly the attacker's attack power; the attack is logged, then the death when it kills |
| World.Entity.Heal | game.py:473-477 | health rises by exactly HealAmount, which is returned, and never passes the maximum |
| World.Entity.UseKey | game.py:570-586 | succeeds exactly with a key in hand and a closed door at the cell; the door becomes an unblocked open door and one key is spent; otherwise nothing changes; no other tile changes |
| World.Entity.BumpTarget | game.py:436-437 | the entity a move bumps into: the first entity at the target that blocks and is alive, as `get_blocking_entity_at` finds it; None when there is none or that first one is the mover itself, and None for a mover not blocking there means nobody blocks the cell |
| World.Entity.Move | game.py:417-450 | the turn is taken exactly when MoveTakesTurn holds: a walkable target that is free or held by a hostile entity, or a closed door opened with a key. An unwalkable target: the player with a key opens a closed door (keys - 1, position kept, turn taken); otherwise nothing changes and the turn is not taken, with a message only for a player at a locked door. A walkable target held by a hostile entity: that entity is attacked. Held by a friendly one: the move is refused. Free: the mover steps. A refused move changes no entity, and the mover only ever steps onto a cell nobody blocked |
| World.Entity.MoveIntoBlocked | game.py:423-433 | into an unwalkable cell the turn is taken exactly when the player holds a key and the cell is a closed door, which then opens and costs one key; otherwise keys and tiles are unchanged and only a keyless player at a closed door is told it is locked |
| World.Entity.MoveIntoOpen | game.py:436-450 | with nobody in the way the mover steps onto the cell; a hostile blocker loses the attack power and the attack (and a death) is logged; a friendly one stops the move and nothing changes |
| World.Entity.EquipWeapon | game.py:554-567 | a weapon in the inventory becomes the current weapon with attack `10 + bonus`; this does not depend on the old state, so equipping twice equals equipping once. A weapon not carried changes nothing but the log |
| World.Entity.PickUpItem | game.py:503-527 | a key always adds one to `keys` and leaves the ground. Another item moves to the inventory only while it holds fewer than 5, and a better weapon is equipped. A full inventory or an empty cell returns False and changes nothing but the log. The inventory never exceeds 5 |
| World.Entity.UseItem | game.py:529-552 | a potion heals by HealAmount and is removed exactly when that is positive (otherwise False, inventory unchanged); a weapon is equipped and the turn taken; any other item takes the turn and changes nothing; an index outside the inventory does nothing and returns False |
| World.Entity.MoveTowards | game.py:634-651 | a stored non-empty path is followed; otherwise the pathfinder's walk from the enemy to the target is, and without one the enemy stays with no path because an end is unwalkable or unreachable. The followed path is stepped along once (SteppedAlong): onto its first cell, keeping the rest, exactly when that cell is walkable and free, else staying and dropping the path. The enemy only steps onto a free cell; nobody else, no message and no tile changes |
| World.Entity.StepAlong | game.py:642-649 | one step along a path: onto its first cell with the rest kept exactly when that cell is walkable and free, otherwise in place with no path; the step is never an attack, lands only on a free cell, and a walk from the old cell remains a walk |
| World.Entity.StepTo | game.py:643-647 | the enemy's move onto the next cell of its path succeeds exactly when that cell is walkable and nobody but the enemy blocks it, and then the cell was free; it is never a door and never an attack, so no other entity, no message and no tile changes |
| World.Entity.Lunge | game.py:611-617 | one step by the sign of each offset towards the player: when the player is next to the enemy and can be struck, the enemy stays, the player loses exactly the attack power and the attack is logged; otherwise the enemy stays or steps onto a free cell; the player is hurt in no other way and keeps its position |
| World.Entity.StrikeStep | game.py:615-617 | the step that lands on a strikable player attacks it: the enemy stays, the player loses exactly the attack power, stops blocking exactly when it dies, and the attack is logged; nobody else is touched |
| World.Entity.PlainStep | game.py:611-617 | a step of at most one cell that is not a strike: the enemy stays, or moves by exactly the step onto a cell nobody blocked; the player's health and position are untouched, and so is every other enemy |
| World.Entity.StrikeAt | game.py:609-621 | a player that can be struck is struck (Struck: the enemy stays, is attacking with no path, the player loses exactly the attack power, the attack is logged); otherwise the player loses nothing, and a refused step next to the player leaves the enemy chasing with its path; the enemy only steps onto a free cell; other enemies are untouched |
| World.Entity.TakeTurn | game.py:599-628 | out of sight the enemy goes idle in place with no path and nothing else changes; in sight and in range it strikes as StrikeAt says; in sight and out of range it chases as Chase says; the player loses exactly the attack power when the enemy sees it and can strike it, and nothing otherwise; the enemy only steps onto a free cell; the map and other enemies are kept |
| World.Entity.Chase | game.py:623-625 | the enemy turns to chasing and follows a path as MoveTowards says: the stored one if non-empty, else the pathfinder's walk to the player, else it stays with no path; the player, every other entity, the log and the map are unchanged |
| World.ActiveIndices | game.py:1056 | the positions of the living enemies of a list, strictly increasing, each one listed |
| World.ActiveEnemies | game.py:1056 | the order-preserving filter of the list by "enemy and alive": its k-th entry is the entity at the k-th of those positions |
| World.ActiveEnemiesDistinct | game.py:1056 | the filtered list has no repeats when the entity list has none |
| World.DistinctJoin | game.py:860-861 | two lists without repeats and without a common entity join into one without repeats, so adding the spawned enemies keeps the entity list repeat-free |
| World.Game.NewGame | game.py:812-819 | floor 1 in play, the player at the walkable start with full health and nothing carried, the spawned entities and items added, and the three welcome lines logged |
| World.Game.AddMessage | game.py:914-918 | the log becomes PushMessage of the old log |
| World.Game.NextFloor | game.py:822-838 | the floor rises by one; past floor 3 the game is won and nothing else changes; otherwise a fresh map, the player (keeping its stats and keys) on its walkable start, only the new entities and items, the descent logged, and play resumes with the player to move |
| World.Game.SetupFloor | game.py:841-863 | a fresh map for the current floor; the player keeps everything but its position and stands on the walkable start; the spawned entities and items are appended; the player is to move |
| World.Game.Update | game.py:1046-1067 | a dead player ends the game. On the enemies' turn the enemies act as EnemiesActed says (each takes exactly its attack power when it saw and could strike the player, and nothing otherwise); a player killed during the sweep ends the game, otherwise the turn returns to the player. The map, the player's position and gear and the floor never change |
| World.Game.EnemyTurns | game.py:1053-1059 | the living enemies, in list order, act while the player lives: all of them unless the player dies. Each takes exactly its attack power from the player when, at the start of the sweep, it saw the player and could strike it, and then ends attacking in place with no path; otherwise it takes nothing. One that did not see the player ends idle in place, one that saw it out of range ends chasing; the rest are untouched |
| World.Game.TurnsOf | game.py:1057-1059 | the loop over the listed enemies gives each enemy handled its TurnOutcome (exactly its attack power when it saw and could strike the player, else nothing; idle when unseen; chasing when out of range) and leaves the rest untouched |
| World.Game.NextTurn | game.py:1057-1059 | one enemy's turn extends that outcome by one enemy; the enemies not yet reached still see what they saw when the sweep began |
| World.Game.EnemyAct | game.py:1057-1059 | an enemy acts only while the player lives, and then with TakeTurn's outcome: exactly its attack power taken when it sees and can strike the player, else none; idle out of sight; chasing along a path out of range; the map, the player's position and gear and every other enemy, and what every other enemy sees, are kept |
| World.Game.PlayerAction | game.py:1010-1023 | the turn is taken exactly when TakesTurn holds for the command. A non-zero move has Move's outcome, a pick-up PickUpItem's, an item use UseItem's; waiting always takes the turn; saving, an unknown key and a zero move never do and change nothing; only a move changes the player's position, by exactly the command's offset |
| World.Game.MovePlayer | game.py:1010-1012 | Move's outcome for the player, with the turn taken exactly when MoveTakesTurn holds, and the player either stays or, when the turn is taken, steps by exactly the offset; the game's invariants hold afterwards |
| World.Game.PlayerPickUp | game.py:1013-1015 | PickUpItem's outcome for the player, with the turn taken exactly when an item lies there and it is a key or the inventory has room; the player does not move and the game's invariants hold afterwards |
| World.Game.PlayerUseItem | game.py:1020-1022 | UseItem's outcome for the player, with the turn taken exactly when the slot exists and is not a potion that would heal nothing; the player does not move and the game's invariants hold afterwards |
| World.Game.PlayerTurn | game.py:992-1033 | the turn is taken exactly when the game is being played, it is the player's turn and TakesTurn holds for the command. Outside play or outside the player's turn nothing happens. Waiting takes the turn; saving, an unknown key and a zero move do not. An untaken turn keeps the phase, the floor and the game state; walking into a closed door without a key keeps the door shut and the player in place, logs that it is locked and keeps the player to move. A taken turn ends on the stairs only by descending (floor + 1, Victory exactly past floor 3), and then passes to the enemies exactly when the game is still being played |
| World.Game.EndPlayerTurn | game.py:1025-1033 | after a taken turn on the stairs the floor rises by one (Victory exactly past floor 3); after any taken turn the enemies move next exactly when the game is still being played; a turn not taken changes nothing; without a descent the map, entities, items, log and player are kept |

## Left out

- Rendering is not modelled. This covers `draw_text`, every `draw` (apart from the explored flags `GameMap.draw` sets), the `render*` methods, the HUD, `Camera` and `FloatingText`. The floating damage text added by `take_damage` is dropped too.
- Colours, glyphs, a tile's own x/y and message texts are not modelled. Messages are kept as the events they report.
- `GameMap.draw` is modelled only for its one effect on the game's state, marking drawn cells explored (Dungeon.GameMap.RevealView). Its camera is given as the view's corner and size.
- `save_game`, `load_game` and the save file are file I/O. The save command is modelled as doing nothing and not taking the turn.
- The keyboard and menu handling of `events`, the `run` loop, the clock and `pygame.time.wait` are not modelled. The main-menu and end-screen states are left out. The player's turn takes an already-decoded Command.
- `distance` (Euclidean, floating point) is unused by the game logic.
- `is_visible_tile` computes no field of view: it accepts every cell on the grid, and IsVisibleTile says so.
- The probability distributions of `random` are not modelled. Every draw is an arbitrary value from the stream, and the properties hold for all of them.
- The random placement in `spawn_entities` and `spawn_items` is not modelled. Their results are parameters of NewGame, SetupFloor and NextFloor, which require only what the game's invariant needs of new enemies (an enemy, no stored path, an attack range of at least one tile). The floor scaling `spawn_entities` applies is stated on its own (FloorHealth, FloorAttack, ScalingMonotone) and is not required of the parameters; the items it creates are not checked against the three item kinds either.
- `create_rooms` tests each child separately (game.py:354-358). Every node `split` touches gets both children or neither, so the one-child cases never arise and are not modelled.
- `GameMap.leafs` and `BSPLeaf.connections` are never read and are not modelled.
- World.Entity.TakeTurn: requires an attack range of at least one tile. Every Goblin and Orc has 1.5. With that range, the `dist > 1.5` fallback at game.py:620 never runs.
- World.Entity.MoveTowards: requires the target to be more than one step away, and every entity hostile to the mover to stand on the target. These are the only conditions under which take_turn calls it. Under them the `IndexError` branch at game.py:650-651 cannot run, because a stored path is never empty.
- World.Entity.UseKey: requires the door cell to be on the grid. The source only calls it from `move` after that check.
- World.Game.PlayerTurn: requires the enemies spawned for a possible next floor to be new objects, not already in the entity list.
- Dungeon.GameMap.GenerateBsp: does not bound where cells are opened. Every cell it makes walkable is proved joined to the start and reachable by the pathfinder, but the contract does not add that such cells lie only in room interiors and corridors (CreateRoom, CreateHTunnel, CreateVTunnel and ConnectRooms say so one call at a time). Closed doors are blocked, so they are not walkable and are not claimed reachable.
- Dungeon.GameMap.GenerateBsp: requires a map at least 7 cells wide and high. The game's map is 80x60. At that size every leaf gets a room, so the no-room fallback at game.py:245-248 never runs.
- Dungeon.GameMap.CreateRoom, Dungeon.GameMap.CreateHTunnel and Dungeon.GameMap.CreateVTunnel: require their cells to be on the grid. Python's negative-index wrap-around is not modelled, and generation never produces such cells.
- Dungeon.BSPLeaf.Split: requires a non-zero divisor for the aspect-ratio test. The source would raise `ZeroDivisionError`, and no node of the generated tree has a zero side.
- Dungeon.BSPLeaf.GetRoom: does not say which child's room `random.choice` picks when both children have one, only that the result is a room of the subtree.
- Items are values, not objects. `items.remove(item)` removes the first equal item. This is the item `get_item_at` found (Rules.FirstAtIsFirstEqual).
- The player's `state`, `sightRadius`, `attackRangeTenths` and `currentPath` fields are unused. They exist only because Player and Enemy share the Entity class.
