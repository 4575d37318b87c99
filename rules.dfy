/** The value-level rules the entities follow: the message log, healing,
    items and their lookup, grid distance and the single-step direction an
    enemy takes, and the per-floor scaling of enemy strength. */
module Rules {
  import opened Common
  import opened Dungeon

  // --- Messages (game.py:914-918) ---

  /** What the game tells the player. The log stores (text, colour) pairs;
      the model keeps the event each text reports. */
  datatype Message =
    | Attacks(attacker: string, target: string, damage: int)
    | Dies(name: string)
    | DoorLocked
    | DoorUnlocked
    | PickedUp(item: string)
    | InventoryFull
    | NothingHere
    | Healed(item: string, amount: int)
    | AlreadyFullHealth
    | Equipped(weapon: string, bonus: int)
    | CannotEquip
    | Descended(floor: int)
    | Welcome
    | ControlsHelp
    | SaveHelp

  /** `add_message` (game.py:914-918): the message goes in front, and the
      oldest one is dropped once the log would exceed MESSAGE_LOG_MAX. */
  function PushMessage(log: seq<Message>, m: Message): (r: seq<Message>)
    ensures |r| == if |log| + 1 > MESSAGE_LOG_MAX then |log| else |log| + 1
    ensures 0 < |r| && r[0] == m && r[1..] == log[..|r| - 1]
  {
    var r := [m] + log;
    if |r| > MESSAGE_LOG_MAX then r[..|r| - 1] else r
  }

  /** The log after adding the messages of ms one after another. */
  function PushAll(log: seq<Message>, ms: seq<Message>): seq<Message>
    decreases |ms|
  {
    if ms == [] then log else PushAll(PushMessage(log, ms[0]), ms[1..])
  }

  function Reverse<T>(s: seq<T>): (r: seq<T>)
    ensures |r| == |s| && forall i :: 0 <= i < |s| ==> r[i] == s[|s| - 1 - i]
  {
    if s == [] then [] else Reverse(s[1..]) + [s[0]]
  }

  /** A log that starts within its bound holds, after any run of messages,
      exactly the newest MESSAGE_LOG_MAX of them and of what it held before,
      newest first. */
  lemma {:induction false} PushAllKeepsNewest(log: seq<Message>, ms: seq<Message>)
    requires |log| <= MESSAGE_LOG_MAX
    ensures PushAll(log, ms) == (Reverse(ms) + log)[..Min(|ms| + |log|, MESSAGE_LOG_MAX)]
    decreases |ms|
  {
    if ms != [] {
      var log1 := PushMessage(log, ms[0]);
      assert log1 == ([ms[0]] + log)[..Min(1 + |log|, MESSAGE_LOG_MAX)];
      PushAllKeepsNewest(log1, ms[1..]);
      var n := Min(|ms| + |log|, MESSAGE_LOG_MAX);
      var a := (Reverse(ms[1..]) + log1)[..Min(|ms| - 1 + |log1|, MESSAGE_LOG_MAX)];
      var b := (Reverse(ms) + log)[..n];
      assert Reverse(ms) == Reverse(ms[1..]) + [ms[0]];
      assert |a| == |b|;
      forall i | 0 <= i < |a| ensures a[i] == b[i] {
        if i >= |ms| - 1 {
          assert a[i] == log1[i - (|ms| - 1)];
        }
      }
    }
  }

  // --- Health (game.py:452-477) ---

  /** How much `heal` restores (game.py:473-477): the amount, capped by
      what is missing from full health. */
  function HealAmount(amount: int, maxHealth: int, health: int): (r: int)
    ensures r <= amount && health + r <= maxHealth
    ensures r == amount || health + r == maxHealth
  {
    if amount <= maxHealth - health then amount else maxHealth - health
  }

  /** Healing never lifts health above its maximum, never lowers it when
      it is within the maximum and the amount is not negative, and restores
      something exactly when health is below the maximum and the amount is
      positive. */
  lemma HealStaysWithinMax(amount: int, maxHealth: int, health: int)
    requires health <= maxHealth && amount >= 0
    ensures health <= health + HealAmount(amount, maxHealth, health) <= maxHealth
    ensures HealAmount(amount, maxHealth, health) > 0 <==> health < maxHealth && amount > 0
  {
  }

  // --- Items (game.py:664-692) ---

  datatype ItemKind = Potion(amount: int) | Weapon(bonus: int) | KeyItem

  /** An item on the ground or in the inventory; its position is where it
      was placed and is kept when it is picked up. */
  datatype Item = Item(x: int, y: int, name: string, kind: ItemKind)

  /** The attack bonus the equipped weapon gives, none without one. */
  function WeaponBonus(weapon: Option<Item>): int {
    if weapon.Some? && weapon.value.kind.Weapon? then weapon.value.kind.bonus else 0
  }

  /** `get_item_at` (game.py:1276-1281): the index of the first item lying
      on (x, y), None when there is none. */
  function ItemAt(items: seq<Item>, x: int, y: int): (r: Option<nat>)
    ensures r.Some? ==> r.value < |items| && items[r.value].x == x && items[r.value].y == y
    ensures r.Some? ==> forall j :: 0 <= j < r.value ==> !(items[j].x == x && items[j].y == y)
    ensures r.None? ==> forall j :: 0 <= j < |items| ==> !(items[j].x == x && items[j].y == y)
  {
    if items == [] then None
    else if items[0].x == x && items[0].y == y then Some(0)
    else match ItemAt(items[1..], x, y)
      case None => None
      case Some(i) => Some(i + 1)
  }

  /** `list.remove` of the element at index i: one occurrence of it leaves
      the list and the others keep their order. */
  function RemoveAt<T>(s: seq<T>, i: nat): (r: seq<T>)
    requires i < |s|
    ensures |r| == |s| - 1 && multiset(r) + multiset{s[i]} == multiset(s)
    ensures forall j :: 0 <= j < i ==> r[j] == s[j]
    ensures forall j :: i <= j < |r| ==> r[j] == s[j + 1]
  {
    assert s == s[..i] + [s[i]] + s[i + 1..];
    s[..i] + s[i + 1..]
  }

  /** Removing the first item found at a position removes the first element
      equal to it: every earlier element lies elsewhere. So the index-based
      removal agrees with the source's `items.remove(item)`. */
  lemma FirstAtIsFirstEqual(items: seq<Item>, x: int, y: int)
    requires ItemAt(items, x, y).Some?
    ensures var i := ItemAt(items, x, y).value;
      forall j :: 0 <= j < i ==> items[j] != items[i]
  {
  }

  // --- Grid distance and steps (game.py:105-107, 603-613) ---

  function Abs(a: int): int { if a < 0 then -a else a }

  /** `distance_grid` (game.py:105-107): the Chebyshev distance. */
  function Chebyshev(x1: int, y1: int, x2: int, y2: int): (d: int)
    ensures d >= 0 && d >= Abs(x1 - x2) && d >= Abs(y1 - y2)
    ensures d == Abs(x1 - x2) || d == Abs(y1 - y2)
  {
    Max(Abs(x1 - x2), Abs(y1 - y2))
  }

  /** Distance 1 is exactly the 8-neighbourhood the pathfinder walks, and
      distance 0 is the same cell. */
  lemma ChebyshevOneIsAdjacent(a: Cell, b: Cell)
    ensures Chebyshev(a.0, a.1, b.0, b.1) == 1 <==> Adjacent8(a, b)
    ensures Chebyshev(a.0, a.1, b.0, b.1) == 0 <==> a == b
  {
  }

  /** The attack-range test `dist <= 1.5` on an integer distance, with the
      range held in tenths of a tile: it holds exactly for distance at most 1.
      So with the default range an enemy that failed its attack move is never
      more than 1.5 away, and the source's fallback (game.py:620-621) does not
      run. */
  predicate WithinRange(dist: int, rangeTenths: int) {
    10 * dist <= rangeTenths
  }

  lemma DefaultRangeIsAdjacency(dist: int)
    ensures WithinRange(dist, ENEMY_ATTACK_RANGE_TENTHS) <==> dist <= 1
  {
  }

  /** `0 if d == 0 else int(d / abs(d))` (game.py:612-613): the direction of
      d as -1, 0 or 1. */
  function Sign(d: int): (r: int)
    ensures -1 <= r <= 1 && (r == 0 <==> d == 0) && r * d >= 0
  {
    if d == 0 then 0 else if d > 0 then 1 else -1
  }

  /** The step an enemy tries towards the player lowers the Chebyshev
      distance between them by exactly one. */
  lemma SignStepCloses(x: int, y: int, px: int, py: int)
    requires (x, y) != (px, py)
    ensures Chebyshev(x + Sign(px - x), y + Sign(py - y), px, py) == Chebyshev(x, y, px, py) - 1
  {
  }

  /** That step lands on the player's cell exactly when the two are at most
      one apart, and it never goes farther than one cell. */
  lemma SignStepReaches(x: int, y: int, px: int, py: int)
    ensures (x + Sign(px - x), y + Sign(py - y)) == (px, py) <==> Chebyshev(x, y, px, py) <= 1
    ensures Chebyshev(x, y, x + Sign(px - x), y + Sign(py - y)) <= 1
  {
  }

  // --- Enemy scaling (game.py:883-885) ---

  /** Enemy maximum health on a floor: two more per floor. */
  function FloorHealth(baseHealth: int, floor: int): (r: int)
    ensures floor >= 0 ==> r >= baseHealth
  {
    baseHealth + floor * 2
  }

  /** Enemy attack on a floor: one more every two floors, by Python's floor
      division. */
  function FloorAttack(baseAttack: int, floor: int): (r: int)
    ensures floor >= 0 ==> baseAttack <= r <= baseAttack + floor
  {
    baseAttack + FloorDiv(floor, 2)
  }

  /** Python's `//`: rounds towards negative infinity. Dafny's `/` agrees
      for a positive divisor. */
  function FloorDiv(a: int, b: int): (q: int)
    requires b > 0
    ensures q * b <= a < q * b + b
  {
    a / b
  }

  /** Deeper floors never give weaker enemies. */
  lemma ScalingMonotone(baseHealth: int, baseAttack: int, f1: int, f2: int)
    requires 0 <= f1 <= f2
    ensures FloorHealth(baseHealth, f1) <= FloorHealth(baseHealth, f2)
    ensures FloorAttack(baseAttack, f1) <= FloorAttack(baseAttack, f2)
  {
    assert FloorDiv(f1, 2) * 2 <= f1 <= f2 < FloorDiv(f2, 2) * 2 + 2;
  }

  /** The log after one attack (game.py:459-470): the attack, then the
      target's death when its health has dropped to 0 or below. */
  function AttackLog(log: seq<Message>, attacker: string, target: string, damage: int, newHealth: int): seq<Message> {
    var l := PushMessage(log, Attacks(attacker, target, damage));
    if newHealth <= 0 then PushMessage(l, Dies(target)) else l
  }
}
