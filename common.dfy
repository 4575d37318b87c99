/** Values shared by every part of the roguelike model: the game's constants,
    grid cells, pygame-style rectangles, an Option type and the random source. */
module Common {

  datatype Option<+T> = None | Some(value: T)

  // --- Constants (game.py:48-70, 772) ---
  const MAP_WIDTH: int := 80
  const MAP_HEIGHT: int := 60
  const BSP_MIN_LEAF_SIZE: int := 10
  const ROOM_MIN_SIZE: int := 5
  const ROOM_MAX_PADDING: int := 2
  const PLAYER_START_HEALTH: int := 100
  const PLAYER_ATTACK: int := 10
  const PLAYER_INVENTORY_SIZE: int := 5
  const NUM_FLOORS: int := 3
  const ENEMY_BASE_HEALTH: int := 20
  const ENEMY_BASE_ATTACK: int := 5
  const ENEMY_SIGHT_RADIUS: int := 8
  /** ENEMY_ATTACK_RANGE is 1.5 tiles; it is kept exactly, in tenths of a tile. */
  const ENEMY_ATTACK_RANGE_TENTHS: int := 15
  const MESSAGE_LOG_MAX: int := 6
  /** The side of a map tile on screen, in pixels (game.py:14). */
  const TILE_SIZE: int := 32

  /** A grid position (x, y); the map is indexed x first. */
  type Cell = (int, int)

  /** pygame.Rect restricted to what the game uses: corner, size and centre. */
  datatype Rect = Rect(x: int, y: int, w: int, h: int) {
    /** pygame's centerx/centery: the corner plus half the size, rounded down. */
    function CenterX(): int { x + w / 2 }
    function CenterY(): int { y + h / 2 }
  }

  /** `random.randint(lo, hi)` as a function of one raw draw `r`. */
  function RandIntOf(lo: int, hi: int, r: nat): (v: int)
    requires lo <= hi
    ensures lo <= v <= hi
  {
    lo + r % (hi - lo + 1)
  }

  /** Every value of the range is produced by some draw, so no outcome of
      `random.randint` is lost by modelling it as RandIntOf. */
  lemma RandIntOfOnto(lo: int, hi: int, v: int)
    requires lo <= v <= hi
    ensures RandIntOf(lo, hi, v - lo) == v
  {
    var n := hi - lo + 1;
    assert 0 <= v - lo < n;
    assert (v - lo) % n == v - lo;
  }

  /** `random.random() < percent / 100` as a function of one raw draw. */
  predicate ChanceOf(percent: int, r: nat) {
    r % 100 < percent
  }

  /** Python's `random` module state: an unbounded stream of raw draws and
      how many of them have been consumed. Every random call of the game
      consumes exactly one draw. */
  class Random {
    const source: nat -> nat
    var drawn: nat

    constructor (source: nat -> nat)
      ensures this.source == source && drawn == 0
    {
      this.source := source;
      drawn := 0;
    }

    /** The draw the next random call will consume. */
    function Peek(): nat
      reads this
    {
      source(drawn)
    }

    /** `random.randint(lo, hi)`. */
    method RandInt(lo: int, hi: int) returns (v: int)
      requires lo <= hi
      modifies this
      ensures drawn == old(drawn) + 1
      ensures v == RandIntOf(lo, hi, old(Peek())) && lo <= v <= hi
    {
      v := RandIntOf(lo, hi, source(drawn));
      drawn := drawn + 1;
    }

    /** `random.random() < percent / 100`. */
    method Chance(percent: int) returns (b: bool)
      modifies this
      ensures drawn == old(drawn) + 1
      ensures b == ChanceOf(percent, old(Peek()))
    {
      b := ChanceOf(percent, source(drawn));
      drawn := drawn + 1;
    }
  }
}
