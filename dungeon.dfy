/** The tile grid, the corridor and room carving, and the breadth-first
    pathfinder of the roguelike (game.py:111-313), plus the binary space
    partition that lays the rooms out (game.py:316-400). */
module Dungeon {
  import opened Common

  datatype TileKind = Wall | Floor | DoorClosed | DoorOpen | Stairs

  /** One map tile (game.py:111-119). The tile's own x and y are not stored:
      they are always its index in the grid. */
  datatype Tile = Tile(blocked: bool, blockSight: bool, explored: bool, kind: TileKind)

  /** `Tile(x, y, True)`: a wall, blocking sight because it blocks movement. */
  const WallTile: Tile := Tile(true, true, false, Wall)
  /** `Tile(x, y, True, True, 'door_closed')`. */
  const ClosedDoorTile: Tile := Tile(true, true, false, DoorClosed)
  /** `Tile(x, y, False, False, 'stairs')`. */
  const StairsTile: Tile := Tile(false, false, false, Stairs)

  /** What carving a room or a tunnel does to a tile: its attributes are
      updated in place, so its explored flag is kept. */
  function Carve(t: Tile): Tile {
    t.(blocked := false, blockSight := false, kind := Floor)
  }

  predicate IsCarved(t: Tile) {
    t.kind == Floor && !t.blocked && !t.blockSight
  }

  /** The four orthogonal neighbour offsets, in the order the door heuristic visits them. */
  const Offsets4: seq<(int, int)> := [(-1, 0), (1, 0), (0, -1), (0, 1)]

  /** The eight neighbour offsets in the order of the pathfinder's nested
      loops: dx over -1, 0, 1, then dy over -1, 0, 1, skipping (0, 0). */
  const Offsets8: seq<(int, int)> :=
    [(-1, -1), (-1, 0), (-1, 1), (0, -1), (0, 1), (1, -1), (1, 0), (1, 1)]

  function Step(c: Cell, d: (int, int)): Cell {
    (c.0 + d.0, c.1 + d.1)
  }

  /** a and b are distinct cells touching orthogonally or diagonally. */
  predicate Adjacent8(a: Cell, b: Cell) {
    a != b && -1 <= a.0 - b.0 <= 1 && -1 <= a.1 - b.1 <= 1
  }

  /** Every 8-neighbour of a cell is one step of Offsets8 away. */
  lemma AdjacentIsOffset(a: Cell, b: Cell) returns (k: nat)
    requires Adjacent8(a, b)
    ensures k < 8 && b == Step(a, Offsets8[k])
  {
    var dx, dy := b.0 - a.0, b.1 - a.1;
    k := if dx == -1 then (if dy == -1 then 0 else if dy == 0 then 1 else 2)
         else if dx == 0 then (if dy == -1 then 3 else 4)
         else (if dy == -1 then 5 else if dy == 0 then 6 else 7);
  }

  /** Conversely, every step of Offsets8 leads to an 8-neighbour. */
  lemma OffsetIsAdjacent(a: Cell, k: nat)
    requires k < 8
    ensures Adjacent8(a, Step(a, Offsets8[k]))
  {
  }

  /** A rectangle whose every cell lies on a width x height grid. */
  predicate RectInMap(r: Rect, width: int, height: int) {
    0 <= r.x && 0 <= r.y && 0 <= r.w && 0 <= r.h && r.x + r.w <= width && r.y + r.h <= height
  }

  /** A room of at least the minimum size has its centre among the cells
      `create_room` carves. */
  lemma CentreIsCarved(r: Rect)
    requires r.w >= ROOM_MIN_SIZE && r.h >= ROOM_MIN_SIZE
    ensures InInterior(r, r.CenterX(), r.CenterY())
  {
  }

  /** The cells `create_room` carves: the rectangle minus its top row and left column. */
  predicate InInterior(r: Rect, i: int, j: int) {
    r.x + 1 <= i < r.x + r.w && r.y + 1 <= j < r.y + r.h
  }

  /** p is a chain of 8-neighbours starting next to s: each cell touches
      the one before it, the first one touches s. */
  predicate IsChain(s: Cell, p: seq<Cell>) {
    forall i :: 0 <= i < |p| ==> ChainStep(s, p, i)
  }

  predicate ChainStep(s: Cell, p: seq<Cell>, i: nat)
    requires i < |p|
  {
    Adjacent8(if i == 0 then s else p[i - 1], p[i])
  }

  /** Following a chain one step leaves a chain from the cell reached. */
  lemma ChainTail(s: Cell, p: seq<Cell>)
    requires IsChain(s, p) && p != []
    ensures Adjacent8(s, p[0]) && IsChain(p[0], p[1..])
  {
    assert ChainStep(s, p, 0);
    forall i | 0 <= i < |p[1..]| ensures ChainStep(p[0], p[1..], i) {
      assert ChainStep(s, p, i + 1);
    }
  }

  /** `open` a door tile in place (game.py:575-577). */
  function OpenDoor(t: Tile): Tile {
    t.(kind := DoorOpen, blocked := false, blockSight := false)
  }

  /** The end of a walk from s: its last cell, or s for the empty walk. */
  function WalkEnd(s: Cell, p: seq<Cell>): Cell {
    if p == [] then s else p[|p| - 1]
  }

  // --- Connectivity over a set of open cells ---

  /** p is a walk from s over the cells of `open`: each cell of p is open
      and touches the cell before it. */
  ghost predicate WalkIn(open: set<Cell>, s: Cell, p: seq<Cell>) {
    forall i :: 0 <= i < |p| ==> OpenStep(open, s, p, i)
  }

  /** The i-th cell of p is open and touches the cell before it. */
  ghost predicate OpenStep(open: set<Cell>, s: Cell, p: seq<Cell>, i: nat)
    requires i < |p|
  {
    p[i] in open && Adjacent8(if i == 0 then s else p[i - 1], p[i])
  }

  /** a is open and a walk over open cells leads from a to b. */
  ghost predicate Connected(open: set<Cell>, a: Cell, b: Cell) {
    a in open && exists p :: WalkIn(open, a, p) && WalkEnd(a, p) == b
  }

  lemma ConnectedRefl(open: set<Cell>, a: Cell)
    requires a in open
    ensures Connected(open, a, a)
  {
    assert WalkIn(open, a, []) && WalkEnd(a, []) == a;
  }

  /** Two walks joined end to start make a walk. */
  lemma ConnectedTrans(open: set<Cell>, a: Cell, b: Cell, c: Cell)
    requires Connected(open, a, b) && Connected(open, b, c)
    ensures Connected(open, a, c)
  {
    var p :| WalkIn(open, a, p) && WalkEnd(a, p) == b;
    var q :| WalkIn(open, b, q) && WalkEnd(b, q) == c;
    var r := p + q;
    forall i | 0 <= i < |r| ensures OpenStep(open, a, r, i) {
      if i < |p| {
        assert OpenStep(open, a, p, i);
        assert r[i] == p[i];
        if i > 0 { assert r[i - 1] == p[i - 1]; }
      } else {
        assert OpenStep(open, b, q, i - |p|);
        assert r[i] == q[i - |p|];
        if i > |p| { assert r[i - 1] == q[i - 1 - |p|]; }
        else if p != [] { assert r[i - 1] == p[|p| - 1]; }
      }
    }
    assert WalkEnd(a, r) == c by {
      if q != [] { assert r[|r| - 1] == q[|q| - 1]; }
      else { assert r == p; }
    }
  }

  /** A walk from a to b, read backwards, is a walk from b to a. */
  lemma ConnectedSym(open: set<Cell>, a: Cell, b: Cell)
    requires Connected(open, a, b)
    ensures Connected(open, b, a)
  {
    var p :| WalkIn(open, a, p) && WalkEnd(a, p) == b;
    var w := [a] + p;
    var n := |p|;
    var q := seq(n, i requires 0 <= i < n => w[n - 1 - i]);
    forall i | 0 <= i < n ensures OpenStep(open, b, q, i) {
      var j := n - 1 - i;
      assert OpenStep(open, a, p, j);
      assert q[i] == w[j] && w[j + 1] == p[j];
      if j > 0 {
        assert w[j] == p[j - 1];
        assert OpenStep(open, a, p, j - 1);
      }
      if i == 0 { assert w[n] == b; } else { assert q[i - 1] == w[j + 1]; }
    }
    assert WalkIn(open, b, q);
    if n > 0 {
      assert q[n - 1] == a;
      assert OpenStep(open, a, p, n - 1);
    }
    assert b in open && WalkEnd(b, q) == a;
  }

  /** More open cells keep every walk. */
  lemma ConnectedGrow(open: set<Cell>, more: set<Cell>, a: Cell, b: Cell)
    requires Connected(open, a, b) && open <= more
    ensures Connected(more, a, b)
  {
    var p :| WalkIn(open, a, p) && WalkEnd(a, p) == b;
    forall i | 0 <= i < |p| ensures OpenStep(more, a, p, i) {
      assert OpenStep(open, a, p, i);
    }
  }

  /** A run of open cells along a row joins its two ends. */
  lemma RowConnected(open: set<Cell>, x1: int, x2: int, y: int)
    requires forall i :: Min(x1, x2) <= i <= Max(x1, x2) ==> (i, y) in open
    ensures Connected(open, (x1, y), (x2, y))
  {
    var d := if x1 <= x2 then 1 else -1;
    var n := if x1 <= x2 then x2 - x1 else x1 - x2;
    var p := seq(n, k requires 0 <= k < n => (x1 + d * (k + 1), y));
    forall k | 0 <= k < n ensures OpenStep(open, (x1, y), p, k) {
      if k > 0 { assert p[k - 1] == (x1 + d * k, y); }
    }
    assert (x1, y) in open;
    assert WalkIn(open, (x1, y), p);
    if n > 0 { assert p[n - 1] == (x2, y); }
  }

  /** A run of open cells along a column joins its two ends. */
  lemma ColumnConnected(open: set<Cell>, y1: int, y2: int, x: int)
    requires forall j :: Min(y1, y2) <= j <= Max(y1, y2) ==> (x, j) in open
    ensures Connected(open, (x, y1), (x, y2))
  {
    var d := if y1 <= y2 then 1 else -1;
    var n := if y1 <= y2 then y2 - y1 else y1 - y2;
    var p := seq(n, k requires 0 <= k < n => (x, y1 + d * (k + 1)));
    forall k | 0 <= k < n ensures OpenStep(open, (x, y1), p, k) {
      if k > 0 { assert p[k - 1] == (x, y1 + d * k); }
    }
    assert (x, y1) in open;
    assert WalkIn(open, (x, y1), p);
    if n > 0 { assert p[n - 1] == (x, y2); }
  }

  /** The centre cell of a room, where corridors start and end. */
  function Centre(r: Rect): Cell {
    (r.CenterX(), r.CenterY())
  }

  /** The rooms rs[lo..hi] are non-empty and every one of their centres is
      joined to the centre of rs[lo] by a walk over `open`. */
  ghost predicate Joined(open: set<Cell>, rs: seq<Rect>, lo: int, hi: int) {
    && 0 <= lo < hi <= |rs|
    && forall k :: lo <= k < hi ==> Connected(open, Centre(rs[lo]), Centre(rs[k]))
  }

  /** Opening more cells and appending more rooms keeps rooms joined. */
  lemma JoinedGrow(open: set<Cell>, more: set<Cell>, rs: seq<Rect>, rs2: seq<Rect>, lo: int, hi: int)
    requires Joined(open, rs, lo, hi) && open <= more && rs <= rs2
    ensures Joined(more, rs2, lo, hi)
  {
    forall k | lo <= k < hi ensures Connected(more, Centre(rs2[lo]), Centre(rs2[k])) {
      ConnectedGrow(open, more, Centre(rs[lo]), Centre(rs[k]));
    }
  }

  /** Two runs of joined rooms, side by side, are joined by a walk between
      a room of the first and a room of the second. */
  lemma JoinedMerge(open: set<Cell>, rs: seq<Rect>, lo: int, mid: int, hi: int, k1: int, k2: int)
    requires Joined(open, rs, lo, mid) && Joined(open, rs, mid, hi)
    requires lo <= k1 < mid <= k2 < hi && Connected(open, Centre(rs[k1]), Centre(rs[k2]))
    ensures Joined(open, rs, lo, hi)
  {
    var first, second := Centre(rs[lo]), Centre(rs[mid]);
    ConnectedTrans(open, first, Centre(rs[k1]), Centre(rs[k2]));
    ConnectedSym(open, second, Centre(rs[k2]));
    ConnectedTrans(open, first, Centre(rs[k2]), second);
    forall k | mid <= k < hi ensures Connected(open, first, Centre(rs[k])) {
      ConnectedTrans(open, first, second, Centre(rs[k]));
    }
  }

  /** Every cell of `open` outside `before` is joined to `hub` by a walk
      over `open`: all the cells opened since `before` hang off hub. */
  ghost predicate ReachedFrom(open: set<Cell>, before: set<Cell>, hub: Cell) {
    forall c :: c in open && c !in before ==> Connected(open, hub, c)
  }

  /** Three rounds of opening cells, each hanging off a hub of its own,
      all hang off the first hub once the other two are joined to it. */
  lemma ReachedChain(o0: set<Cell>, o1: set<Cell>, o2: set<Cell>, o3: set<Cell>, hub: Cell, h2: Cell, h3: Cell)
    requires o1 <= o2 <= o3
    requires ReachedFrom(o1, o0, hub) && ReachedFrom(o2, o1, h2) && ReachedFrom(o3, o2, h3)
    requires Connected(o3, hub, h2) && Connected(o3, hub, h3)
    ensures ReachedFrom(o3, o0, hub)
  {
    forall c | c in o3 && c !in o0 ensures Connected(o3, hub, c) {
      if c in o1 {
        ConnectedGrow(o1, o3, hub, c);
      } else if c in o2 {
        ConnectedGrow(o2, o3, h2, c);
        ConnectedTrans(o3, hub, h2, c);
      } else {
        ConnectedTrans(o3, hub, h3, c);
      }
    }
  }

  /** A room whose carved interior is open, and outside whose interior no
      cell was opened, has every cell opened joined to its centre: along
      the centre's row, then along the cell's column. */
  lemma RoomReached(open: set<Cell>, before: set<Cell>, r: Rect, width: int, height: int)
    requires RectInMap(r, width, height) && r.w >= ROOM_MIN_SIZE && r.h >= ROOM_MIN_SIZE
    requires forall i, j :: InInterior(r, i, j) && 0 <= i < width && 0 <= j < height ==> (i, j) in open
    requires forall c :: c in open && c !in before ==> InInterior(r, c.0, c.1)
    ensures ReachedFrom(open, before, Centre(r))
  {
    var a := Centre(r);
    CentreIsCarved(r);
    forall c | c in open && c !in before ensures Connected(open, a, c) {
      assert InInterior(r, c.0, a.1);
      RowConnected(open, a.0, c.0, a.1);
      ColumnConnected(open, a.1, c.1, c.0);
      ConnectedTrans(open, a, (c.0, a.1), c);
    }
  }

  /** The cells a row-first corridor from (x1, y1) to (x2, y2) opens: the
      row leg opens those from o0 to o1, the column leg those from o1 to o2.
      All of them lie on the corridor. */
  lemma RowFirstLegs(o0: set<Cell>, o1: set<Cell>, o2: set<Cell>, x1: int, y1: int, x2: int, y2: int)
    requires forall c :: c in o1 && c !in o0 ==> c.1 == y1 && Min(x1, x2) <= c.0 <= Max(x1, x2)
    requires forall c :: c in o2 && c !in o1 ==> c.0 == x2 && Min(y1, y2) <= c.1 <= Max(y1, y2)
    ensures forall c :: c in o2 && c !in o0 ==> OnCorridor(c, (x1, y1), (x2, y2), true)
  {
  }

  /** The same for a column-first corridor. */
  lemma ColumnFirstLegs(o0: set<Cell>, o1: set<Cell>, o2: set<Cell>, x1: int, y1: int, x2: int, y2: int)
    requires forall c :: c in o1 && c !in o0 ==> c.0 == x1 && Min(y1, y2) <= c.1 <= Max(y1, y2)
    requires forall c :: c in o2 && c !in o1 ==> c.1 == y2 && Min(x1, x2) <= c.0 <= Max(x1, x2)
    ensures forall c :: c in o2 && c !in o0 ==> OnCorridor(c, (x1, y1), (x2, y2), false)
  {
  }

  /** c lies on the L-shaped corridor from a to b: along a's row, then
      along b's column when rowFirst; along a's column, then along b's row
      otherwise. */
  predicate OnCorridor(c: Cell, a: Cell, b: Cell, rowFirst: bool) {
    if rowFirst then
      || (c.1 == a.1 && Min(a.0, b.0) <= c.0 <= Max(a.0, b.0))
      || (c.0 == b.0 && Min(a.1, b.1) <= c.1 <= Max(a.1, b.1))
    else
      || (c.0 == a.0 && Min(a.1, b.1) <= c.1 <= Max(a.1, b.1))
      || (c.1 == b.1 && Min(a.0, b.0) <= c.0 <= Max(a.0, b.0))
  }

  /** The cells queued in the pathfinder's work queue. */
  function QueueCells(q: seq<(int, int, seq<Cell>)>): set<Cell> {
    set k | 0 <= k < |q| :: (q[k].0, q[k].1)
  }

  lemma QueueCellsAppend(q: seq<(int, int, seq<Cell>)>, t: (int, int, seq<Cell>))
    ensures QueueCells(q + [t]) == QueueCells(q) + {(t.0, t.1)}
  {
    var r := q + [t];
    assert (r[|q|].0, r[|q|].1) == (t.0, t.1);
    forall c | c in QueueCells(q) ensures c in QueueCells(r) {
      var k :| 0 <= k < |q| && c == (q[k].0, q[k].1);
      assert r[k] == q[k];
    }
  }

  /** The pathfinder's queue in breadth-first order: the queued paths
      never get shorter along the queue, and all are l or l + 1 long. */
  predicate Layered(q: seq<(int, int, seq<Cell>)>, l: nat) {
    && (forall k :: 0 <= k < |q| ==> l <= |q[k].2| <= l + 1)
    && (forall i, j :: 0 <= i < j < |q| ==> |q[i].2| <= |q[j].2|)
  }

  /** Queueing a path one longer than the layer keeps the order. */
  lemma LayeredAppend(q: seq<(int, int, seq<Cell>)>, t: (int, int, seq<Cell>), l: nat)
    requires Layered(q, l) && |t.2| == l + 1
    ensures Layered(q + [t], l)
  {
    var r := q + [t];
    forall i, j | 0 <= i < j < |r| ensures |r[i].2| <= |r[j].2| {
      assert r[i] == q[i];
      if j < |q| { assert r[j] == q[j]; }
    }
  }

  /** Once the head is taken off, the rest lies in the head's layer. */
  lemma LayeredPop(q: seq<(int, int, seq<Cell>)>, l: nat)
    requires q != [] && Layered(q, l)
    ensures Layered(q[1..], |q[0].2|)
  {
    forall k | 0 <= k < |q[1..]| ensures |q[0].2| <= |q[1..][k].2| <= |q[0].2| + 1 {
      assert q[1..][k] == q[k + 1];
    }
    forall i, j | 0 <= i < j < |q[1..]| ensures |q[1..][i].2| <= |q[1..][j].2| {
      assert q[1..][i] == q[i + 1] && q[1..][j] == q[j + 1];
    }
  }

  /** A queue in layer l lies in its head's layer too. */
  lemma LayeredHead(q: seq<(int, int, seq<Cell>)>, l: nat)
    requires q != [] && Layered(q, l)
    ensures Layered(q, |q[0].2|)
  {
    forall k | 0 < k < |q| ensures |q[0].2| <= |q[k].2| {
    }
  }

  lemma QueueCellsPop(q: seq<(int, int, seq<Cell>)>)
    requires q != []
    ensures QueueCells(q) == QueueCells(q[1..]) + {(q[0].0, q[0].1)}
  {
    forall c | c in QueueCells(q) ensures c in QueueCells(q[1..]) + {(q[0].0, q[0].1)} {
      var k :| 0 <= k < |q| && c == (q[k].0, q[k].1);
      if k > 0 { assert q[1..][k - 1] == q[k]; }
    }
    forall c | c in QueueCells(q[1..]) ensures c in QueueCells(q) {
      var k :| 0 <= k < |q[1..]| && c == (q[1..][k].0, q[1..][k].1);
      assert q[1..][k] == q[k + 1];
    }
  }

  function Min(a: int, b: int): int { if a <= b then a else b }
  function Max(a: int, b: int): int { if a <= b then b else a }

  class GameMap {
    const width: nat
    const height: nat
    const dungeonLevel: int
    /** `tiles`, indexed [x, y] as in the source's list of columns. */
    const tiles: array2<Tile>
    var rooms: seq<Rect>
    var playerStartX: int
    var playerStartY: int
    var stairsX: int
    var stairsY: int

    ghost predicate Valid() {
      tiles.Length0 == width && tiles.Length1 == height
    }

    /** `GameMap(width, height, dungeon_level)`: every tile a wall (game.py:123-137). */
    constructor (width: nat, height: nat, dungeonLevel: int)
      ensures Valid() && this.width == width && this.height == height
      ensures this.dungeonLevel == dungeonLevel && fresh(tiles)
      ensures forall i, j :: 0 <= i < width && 0 <= j < height ==> tiles[i, j] == WallTile
      ensures rooms == [] && playerStartX == 0 && playerStartY == 0 && stairsX == 0 && stairsY == 0
    {
      this.width := width;
      this.height := height;
      this.dungeonLevel := dungeonLevel;
      tiles := new Tile[width, height]((i, j) => WallTile);
      rooms := [];
      playerStartX, playerStartY := 0, 0;
      stairsX, stairsY := 0, 0;
    }

    predicate InBounds(x: int, y: int) {
      0 <= x < width && 0 <= y < height
    }

    /** `is_walkable` (game.py:139-143): on the grid and not blocked. */
    predicate IsWalkable(x: int, y: int)
      requires Valid()
      reads tiles
    {
      if x < 0 || x >= width || y < 0 || y >= height then false
      else !tiles[x, y].blocked
    }

    /** `is_visible_tile` (game.py:145-149): no field of view is computed,
        so every cell of the grid counts as seen. */
    predicate IsVisibleTile(x: int, y: int) {
      0 <= x < width && 0 <= y < height
    }

    /** The cells `draw` visits (game.py:252-258) for a camera whose view
        starts at map cell (viewX, viewY) and is viewWidth by viewHeight
        pixels: one cell of margin before the view and two after it,
        clipped to the grid. */
    predicate InDrawnView(x: int, y: int, viewX: int, viewY: int, viewWidth: int, viewHeight: int) {
      && Max(0, viewX - 1) <= x < Min(width, viewX + viewWidth / TILE_SIZE + 2)
      && Max(0, viewY - 1) <= y < Min(height, viewY + viewHeight / TILE_SIZE + 2)
    }

    /** What `draw` (game.py:252-263) does to the map: every visited cell
        that is visible is marked explored. The drawing itself is not
        modelled. Only explored flags change, none is cleared, and every
        drawn cell is explored afterwards. */
    method RevealView(viewX: int, viewY: int, viewWidth: int, viewHeight: int)
      requires Valid()
      modifies tiles
      ensures forall i, j :: 0 <= i < width && 0 <= j < height ==>
        tiles[i, j] == if InDrawnView(i, j, viewX, viewY, viewWidth, viewHeight) && IsVisibleTile(i, j)
          then old(tiles[i, j]).(explored := true) else old(tiles[i, j])
      ensures forall i, j :: 0 <= i < width && 0 <= j < height ==>
        && tiles[i, j].(explored := false) == old(tiles[i, j]).(explored := false)
        && (old(tiles[i, j].explored) ==> tiles[i, j].explored)
      ensures forall i, j :: 0 <= i < width && 0 <= j < height && InDrawnView(i, j, viewX, viewY, viewWidth, viewHeight) ==>
        tiles[i, j].explored
    {
      var startX, endX := Max(0, viewX - 1), Min(width, viewX + viewWidth / TILE_SIZE + 2);
      var startY, endY := Max(0, viewY - 1), Min(height, viewY + viewHeight / TILE_SIZE + 2);
      var x := startX;
      while x < endX
        invariant startX <= x
        invariant forall i, j :: 0 <= i < width && 0 <= j < height ==>
          tiles[i, j] == if startX <= i < x && InDrawnView(i, j, viewX, viewY, viewWidth, viewHeight) && IsVisibleTile(i, j)
            then old(tiles[i, j]).(explored := true) else old(tiles[i, j])
      {
        var y := startY;
        while y < endY
          invariant startY <= y
          invariant forall i, j :: 0 <= i < width && 0 <= j < height ==>
            tiles[i, j] == if (startX <= i < x || (i == x && j < y)) && InDrawnView(i, j, viewX, viewY, viewWidth, viewHeight) && IsVisibleTile(i, j)
              then old(tiles[i, j]).(explored := true) else old(tiles[i, j])
        {
          if IsVisibleTile(x, y) {
            tiles[x, y] := tiles[x, y].(explored := true);
          }
          y := y + 1;
        }
        x := x + 1;
      }
    }

    /** Every tile of kind Wall blocks movement; carving keeps this true, and
        it is what makes door placement unable to close a walkable cell. */
    ghost predicate WallsBlocked()
      requires Valid()
      reads tiles
    {
      forall i, j :: 0 <= i < width && 0 <= j < height && tiles[i, j].kind == Wall ==> tiles[i, j].blocked
    }

    /** `create_room` (game.py:151-157): carves the interior of r and nothing else. */
    method CreateRoom(r: Rect)
      requires Valid()
      requires r.w <= 1 || r.h <= 1 || (0 <= r.x + 1 && r.x + r.w <= width && 0 <= r.y + 1 && r.y + r.h <= height)
      modifies tiles
      ensures forall i, j :: 0 <= i < width && 0 <= j < height ==>
        tiles[i, j] == if InInterior(r, i, j) then Carve(old(tiles[i, j])) else old(tiles[i, j])
      ensures forall c :: c in OpenCells() && c !in old(OpenCells()) ==> InInterior(r, c.0, c.1)
    {
      var i := r.x + 1;
      while i < r.x + r.w
        invariant r.x + 1 <= i || r.w <= 1
        invariant forall a, b :: 0 <= a < width && 0 <= b < height ==>
          tiles[a, b] == if InInterior(r, a, b) && a < i then Carve(old(tiles[a, b])) else old(tiles[a, b])
      {
        var j := r.y + 1;
        while j < r.y + r.h
          invariant r.y + 1 <= j || r.h <= 1
          invariant forall a, b :: 0 <= a < width && 0 <= b < height ==>
            tiles[a, b] == if InInterior(r, a, b) && (a < i || (a == i && b < j)) then Carve(old(tiles[a, b])) else old(tiles[a, b])
        {
          tiles[i, j] := Carve(tiles[i, j]);
          j := j + 1;
        }
        i := i + 1;
      }
    }

    /** How many of the first k orthogonal neighbours of (x, y) lie on the
        grid and have the given kind (the counting loop of game.py:184-189). */
    function CountAround(x: int, y: int, kind: TileKind, k: nat): nat
      requires Valid() && k <= 4
      reads tiles
    {
      if k == 0 then 0
      else
        var n := Step((x, y), Offsets4[k - 1]);
        CountAround(x, y, kind, k - 1) + (if InBounds(n.0, n.1) && tiles[n.0, n.1].kind == kind then 1 else 0)
    }

    /** Some of the first k orthogonal neighbours of (x, y) is an open or closed door. */
    predicate DoorAround(x: int, y: int, k: nat)
      requires Valid() && k <= 4
      reads tiles
    {
      k > 0 &&
      (DoorAround(x, y, k - 1) ||
       var n := Step((x, y), Offsets4[k - 1]);
       InBounds(n.0, n.1) && tiles[n.0, n.1].kind in {DoorClosed, DoorOpen})
    }

    /** The entrance heuristic of game.py:192: a floor cell with at least two
        wall neighbours and at least one floor neighbour. */
    predicate LooksLikeEntrance(x: int, y: int)
      requires Valid() && InBounds(x, y)
      reads tiles
    {
      tiles[x, y].kind == Floor && CountAround(x, y, Wall, 4) >= 2 && CountAround(x, y, Floor, 4) >= 1
    }

    /** `_try_place_door` (game.py:176-213). When it places a door (the ghost
        result names where), the door replaces an orthogonal neighbour of
        (x, y) that was a wall with no door beside it, (x, y) met the entrance
        heuristic, and no other tile changed; otherwise nothing changed. */
    method TryPlaceDoor(x: int, y: int, rng: Random) returns (ghost door: Option<Cell>)
      requires Valid() && InBounds(x, y)
      modifies tiles, rng
      ensures door.None? ==> forall i, j :: 0 <= i < width && 0 <= j < height ==> tiles[i, j] == old(tiles[i, j])
      ensures door.Some? ==>
        var c := door.value;
        && InBounds(c.0, c.1)
        && (exists d :: 0 <= d < 4 && c == Step((x, y), Offsets4[d]))
        && old(LooksLikeEntrance(x, y))
        && old(tiles[c.0, c.1]).kind == Wall
        && !old(DoorAround(c.0, c.1, 4))
        && tiles[c.0, c.1] == ClosedDoorTile
        && forall i, j :: 0 <= i < width && 0 <= j < height && (i, j) != c ==> tiles[i, j] == old(tiles[i, j])
    {
      door := None;
      var wallNeighbours, floorNeighbours := 0, 0;
      for k := 0 to 4
        invariant wallNeighbours == CountAround(x, y, Wall, k)
        invariant floorNeighbours == CountAround(x, y, Floor, k)
      {
        var n := Step((x, y), Offsets4[k]);
        if InBounds(n.0, n.1) {
          if tiles[n.0, n.1].kind == Wall {
            wallNeighbours := wallNeighbours + 1;
          } else if tiles[n.0, n.1].kind == Floor {
            floorNeighbours := floorNeighbours + 1;
          }
        }
      }
      if tiles[x, y].kind == Floor && wallNeighbours >= 2 && floorNeighbours >= 1 {
        var placed := false;
        var d := 0;
        while d < 4 && !placed
          invariant 0 <= d <= 4
          invariant placed <==> door.Some?
          invariant !placed ==> forall i, j :: 0 <= i < width && 0 <= j < height ==> tiles[i, j] == old(tiles[i, j])
          invariant placed ==>
            var c := door.value;
            && InBounds(c.0, c.1)
            && (exists e :: 0 <= e < 4 && c == Step((x, y), Offsets4[e]))
            && old(tiles[c.0, c.1]).kind == Wall
            && !old(DoorAround(c.0, c.1, 4))
            && tiles[c.0, c.1] == ClosedDoorTile
            && forall i, j :: 0 <= i < width && 0 <= j < height && (i, j) != c ==> tiles[i, j] == old(tiles[i, j])
        {
          var c := Step((x, y), Offsets4[d]);
          if InBounds(c.0, c.1) && tiles[c.0, c.1].kind == Wall {
            var connected, alreadyDoor := false, false;
            for e := 0 to 4
              invariant alreadyDoor == old(DoorAround(c.0, c.1, e))
            {
              var n := Step(c, Offsets4[e]);
              if n == (x, y) {
                connected := true;
              }
              if InBounds(n.0, n.1) && tiles[n.0, n.1].kind in {DoorClosed, DoorOpen} {
                alreadyDoor := true;
              }
            }
            if connected && !alreadyDoor {
              var lucky := rng.Chance(20);
              if lucky {
                tiles[c.0, c.1] := ClosedDoorTile;
                door := Some(c);
                placed := true;
              }
            }
          }
          d := d + 1;
        }
      }
    }

    /** TryPlaceDoor seen from the tunnel: a door, if any, replaces a wall
        next to (x, y), and no other tile changes. */
    method DoorBeside(x: int, y: int, rng: Random) returns (ghost door: Option<Cell>)
      requires Valid() && InBounds(x, y)
      modifies tiles, rng
      ensures door.None? ==> forall i, j :: 0 <= i < width && 0 <= j < height ==> tiles[i, j] == old(tiles[i, j])
      ensures door.Some? ==>
        var c := door.value;
        && InBounds(c.0, c.1) && old(tiles[c.0, c.1]).kind == Wall && tiles[c.0, c.1] == ClosedDoorTile
        && forall i, j :: 0 <= i < width && 0 <= j < height && (i, j) != c ==> tiles[i, j] == old(tiles[i, j])
    {
      door := TryPlaceDoor(x, y, rng);
    }

    /** One step of a tunnel (game.py:162-165): (x, y) becomes carved floor
        and a door may then replace a wall beside it; walls stay blocked and
        no other tile changes. */
    method CarveCell(x: int, y: int, rng: Random)
      requires Valid() && InBounds(x, y) && WallsBlocked()
      modifies tiles, rng
      ensures WallsBlocked() && IsCarved(tiles[x, y])
      ensures forall i, j :: 0 <= i < width && 0 <= j < height && (i, j) != (x, y) ==>
        tiles[i, j] == old(tiles[i, j]) || (old(tiles[i, j]).kind == Wall && tiles[i, j] == ClosedDoorTile)
    {
      tiles[x, y] := Carve(tiles[x, y]);
      ghost var _ := DoorBeside(x, y, rng);
    }

    /** `create_h_tunnel` (game.py:159-165): the inclusive run from x1 to x2 on
        row y ends up carved; any other tile is unchanged or was a wall that
        became a closed door. */
    method CreateHTunnel(x1: int, x2: int, y: int, rng: Random)
      requires Valid() && InBounds(x1, y) && InBounds(x2, y) && WallsBlocked()
      modifies tiles, rng
      ensures WallsBlocked()
      ensures forall i, j :: 0 <= i < width && 0 <= j < height && !old(tiles[i, j]).blocked ==> !tiles[i, j].blocked
      ensures forall i :: Min(x1, x2) <= i <= Max(x1, x2) ==> IsCarved(tiles[i, y])
      ensures forall i, j :: 0 <= i < width && 0 <= j < height && !(j == y && Min(x1, x2) <= i <= Max(x1, x2)) ==>
        tiles[i, j] == old(tiles[i, j]) || (old(tiles[i, j]).kind == Wall && tiles[i, j] == ClosedDoorTile)
      ensures forall c :: c in OpenCells() && c !in old(OpenCells()) ==> c.1 == y && Min(x1, x2) <= c.0 <= Max(x1, x2)
    {
      var x := Min(x1, x2);
      while x < Max(x1, x2) + 1
        invariant Min(x1, x2) <= x <= Max(x1, x2) + 1
        invariant forall i :: Min(x1, x2) <= i < x ==> IsCarved(tiles[i, y])
        invariant forall i, j :: 0 <= i < width && 0 <= j < height && !(j == y && Min(x1, x2) <= i < x) ==>
          tiles[i, j] == old(tiles[i, j]) || (old(tiles[i, j]).kind == Wall && tiles[i, j] == ClosedDoorTile)
      {
        CarveCell(x, y, rng);
        x := x + 1;
      }
    }

    /** `create_v_tunnel` (game.py:168-174): the column counterpart of CreateHTunnel. */
    method CreateVTunnel(y1: int, y2: int, x: int, rng: Random)
      requires Valid() && InBounds(x, y1) && InBounds(x, y2) && WallsBlocked()
      modifies tiles, rng
      ensures WallsBlocked()
      ensures forall i, j :: 0 <= i < width && 0 <= j < height && !old(tiles[i, j]).blocked ==> !tiles[i, j].blocked
      ensures forall j :: Min(y1, y2) <= j <= Max(y1, y2) ==> IsCarved(tiles[x, j])
      ensures forall i, j :: 0 <= i < width && 0 <= j < height && !(i == x && Min(y1, y2) <= j <= Max(y1, y2)) ==>
        tiles[i, j] == old(tiles[i, j]) || (old(tiles[i, j]).kind == Wall && tiles[i, j] == ClosedDoorTile)
      ensures forall c :: c in OpenCells() && c !in old(OpenCells()) ==> c.0 == x && Min(y1, y2) <= c.1 <= Max(y1, y2)
    {
      var y := Min(y1, y2);
      while y < Max(y1, y2) + 1
        invariant Min(y1, y2) <= y <= Max(y1, y2) + 1
        invariant forall j :: Min(y1, y2) <= j < y ==> IsCarved(tiles[x, j])
        invariant forall i, j :: 0 <= i < width && 0 <= j < height && !(i == x && Min(y1, y2) <= j < y) ==>
          tiles[i, j] == old(tiles[i, j]) || (old(tiles[i, j]).kind == Wall && tiles[i, j] == ClosedDoorTile)
      {
        CarveCell(x, y, rng);
        y := y + 1;
      }
    }
  
    /** The inclusive run of row y between x1 and x2 is carved floor. */
    ghost predicate RowCarved(x1: int, x2: int, y: int)
      requires Valid()
      reads tiles
    {
      forall i :: Min(x1, x2) <= i <= Max(x1, x2) ==> InBounds(i, y) && IsCarved(tiles[i, y])
    }

    /** The inclusive run of column x between y1 and y2 is carved floor. */
    ghost predicate ColumnCarved(y1: int, y2: int, x: int)
      requires Valid()
      reads tiles
    {
      forall j :: Min(y1, y2) <= j <= Max(y1, y2) ==> InBounds(x, j) && IsCarved(tiles[x, j])
    }

    // --- Level generation (game.py:216-248) ---

    /** Every room from index `from` on has its carved interior walkable. */
    ghost predicate RoomsOpen(from: int)
      requires Valid()
      reads this, tiles
    {
      InteriorsOpen(OpenCells(), rooms, from, width, height)
    }

    /** `generate_bsp` (game.py:216-248). The grid is split by a BSP tree,
        a room is carved in every leaf and siblings are joined by corridors;
        the player starts at the centre of the first room and the stairs
        replace the centre of the last one. The source's call to
        `_initialize_tiles` builds a fresh wall grid and throws it away, so
        the tiles are not reset: cells already open stay open. At least one
        room always exists, so the fallback start position at the centre of
        the map (game.py:245-248) is never used. */
    method GenerateBsp(rng: Random)
      requires Valid() && WallsBlocked() && width >= LEAF_MIN_EXTENT && height >= LEAF_MIN_EXTENT
      modifies this, tiles, rng
      ensures WallsBlocked()
      ensures forall i, j :: 0 <= i < width && 0 <= j < height && !old(tiles[i, j]).blocked ==> !tiles[i, j].blocked
      ensures |rooms| >= 1 && RoomsOpen(0)
      ensures forall k :: 0 <= k < |rooms| ==>
        RectInMap(rooms[k], width, height) && rooms[k].w >= ROOM_MIN_SIZE && rooms[k].h >= ROOM_MIN_SIZE
      ensures playerStartX == rooms[0].CenterX() && playerStartY == rooms[0].CenterY()
      ensures stairsX == rooms[|rooms| - 1].CenterX() && stairsY == rooms[|rooms| - 1].CenterY()
      ensures InBounds(stairsX, stairsY) && tiles[stairsX, stairsY] == StairsTile
      ensures IsWalkable(playerStartX, playerStartY) && IsWalkable(stairsX, stairsY)
      // The pathfinder can reach every room, the stairs included, from the
      // player's start.
      ensures forall k :: 0 <= k < |rooms| ==> !Unreachable((playerStartX, playerStartY), Centre(rooms[k]))
      ensures !Unreachable((playerStartX, playerStartY), (stairsX, stairsY))
      // Every cell that became walkable is joined to the player's start by
      // walkable cells, and the pathfinder reaches it from there.
      ensures ReachedFrom(OpenCells(), old(OpenCells()), (playerStartX, playerStartY))
      ensures forall c :: c in OpenCells() && c !in old(OpenCells()) ==> !Unreachable((playerStartX, playerStartY), c)
    {
      var discarded := new Tile[width, height]((i, j) => WallTile);
      BuildRooms(rng);
      PlaceEnds(old(OpenCells()));
    }

    /** The end of `generate_bsp` (game.py:232-244): the player starts at the
        centre of the first room and the stairs replace the centre of the
        last one. That cell is already open, so the open cells stay the
        same; the start then reaches every room, the stairs and every cell
        opened since `before`. */
    method PlaceEnds(ghost before: set<Cell>)
      requires Valid() && WallsBlocked() && |rooms| >= 1 && RoomsOpen(0)
      requires forall k :: 0 <= k < |rooms| ==>
        RectInMap(rooms[k], width, height) && rooms[k].w >= ROOM_MIN_SIZE && rooms[k].h >= ROOM_MIN_SIZE
      requires Joined(OpenCells(), rooms, 0, |rooms|) && ReachedFrom(OpenCells(), before, Centre(rooms[0]))
      modifies this`playerStartX, this`playerStartY, this`stairsX, this`stairsY, tiles
      ensures WallsBlocked() && RoomsOpen(0) && OpenCells() == old(OpenCells())
      ensures forall i, j :: 0 <= i < width && 0 <= j < height && !old(tiles[i, j]).blocked ==> !tiles[i, j].blocked
      ensures playerStartX == rooms[0].CenterX() && playerStartY == rooms[0].CenterY()
      ensures stairsX == rooms[|rooms| - 1].CenterX() && stairsY == rooms[|rooms| - 1].CenterY()
      ensures InBounds(stairsX, stairsY) && tiles[stairsX, stairsY] == StairsTile
      ensures IsWalkable(playerStartX, playerStartY) && IsWalkable(stairsX, stairsY)
      ensures forall k :: 0 <= k < |rooms| ==> !Unreachable((playerStartX, playerStartY), Centre(rooms[k]))
      ensures !Unreachable((playerStartX, playerStartY), (stairsX, stairsY))
      ensures ReachedFrom(OpenCells(), before, (playerStartX, playerStartY))
      ensures forall c :: c in OpenCells() && c !in before ==> !Unreachable((playerStartX, playerStartY), c)
    {
      var first, last := rooms[0], rooms[|rooms| - 1];
      playerStartX, playerStartY := first.CenterX(), first.CenterY();
      stairsX, stairsY := last.CenterX(), last.CenterY();
      ghost var open0 := OpenCells();
      CentreIsCarved(last);
      assert (stairsX, stairsY) in open0;
      PlaceStairs(stairsX, stairsY);
      assert OpenCells() == open0;
      JoinedReachable(rooms);
      ReachedReachable((playerStartX, playerStartY), before);
    }

    /** The room-making part of `generate_bsp` (game.py:216-230): the room
        list starts empty, the grid is split into a BSP tree and every leaf
        gets a room; at least one room results, each inside the map and
        carved, and no open cell is closed. */
    method BuildRooms(rng: Random)
      requires Valid() && WallsBlocked() && width >= LEAF_MIN_EXTENT && height >= LEAF_MIN_EXTENT
      modifies this`rooms, tiles, rng
      ensures WallsBlocked()
      ensures forall i, j :: 0 <= i < width && 0 <= j < height && !old(tiles[i, j]).blocked ==> !tiles[i, j].blocked
      ensures |rooms| >= 1 && RoomsOpen(0)
      ensures forall k :: 0 <= k < |rooms| ==>
        RectInMap(rooms[k], width, height) && rooms[k].w >= ROOM_MIN_SIZE && rooms[k].h >= ROOM_MIN_SIZE
      ensures old(OpenCells()) <= OpenCells()
      // Every room is joined to the first by walkable cells, and so is
      // every cell opened.
      ensures Joined(OpenCells(), rooms, 0, |rooms|)
      ensures ReachedFrom(OpenCells(), old(OpenCells()), Centre(rooms[0]))
    {
      rooms := [];
      var root, U := SplitAll(width, height, rng);
      root.CreateRooms(this, rng, U);
    }

    /** The stairs tile written at (sx, sy) (game.py:244): walkable and
        transparent, so walls stay blocked, open cells stay open and carved
        rooms stay carved; no other cell changes. */
    method PlaceStairs(sx: int, sy: int)
      requires Valid() && WallsBlocked() && InBounds(sx, sy)
      modifies tiles
      ensures tiles[sx, sy] == StairsTile && WallsBlocked()
      ensures forall i, j :: 0 <= i < width && 0 <= j < height && (i, j) != (sx, sy) ==> tiles[i, j] == old(tiles[i, j])
      ensures forall i, j :: 0 <= i < width && 0 <= j < height && !old(tiles[i, j]).blocked ==> !tiles[i, j].blocked
      ensures old(OpenCells()) <= OpenCells() && OpenCells() == old(OpenCells()) + {(sx, sy)}
      ensures old(RoomsOpen(0)) ==> RoomsOpen(0)
    {
      tiles[sx, sy] := StairsTile;
    }

    // --- Pathfinding (game.py:286-313) ---

    /** p is a walk from s: each cell of p is walkable and an 8-neighbour of
        the cell before it, the first one of s. s itself is not part of p. */
    ghost predicate IsWalk(s: Cell, p: seq<Cell>)
      requires Valid()
      reads tiles
    {
      forall i :: 0 <= i < |p| ==> StepOK(s, p, i)
    }

    /** The i-th cell of p is walkable and touches the cell before it. */
    ghost predicate StepOK(s: Cell, p: seq<Cell>, i: nat)
      requires Valid() && i < |p|
      reads tiles
    {
      IsWalkable(p[i].0, p[i].1) && Adjacent8(if i == 0 then s else p[i - 1], p[i])
    }

    /** A walk is in particular a chain of neighbours. */
    lemma WalkIsChain(s: Cell, p: seq<Cell>)
      requires Valid() && IsWalk(s, p)
      ensures IsChain(s, p)
    {
      forall i | 0 <= i < |p| ensures ChainStep(s, p, i) {
        assert StepOK(s, p, i);
      }
    }

    /** No walk from s ends at e. */
    ghost predicate Unreachable(s: Cell, e: Cell)
      requires Valid()
      reads tiles
    {
      forall p :: IsWalk(s, p) ==> WalkEnd(s, p) != e
    }

    /** The walkable cells of the grid. */
    ghost function OpenCells(): (r: set<Cell>)
      requires Valid()
      reads tiles
      ensures forall c :: c in r <==> IsWalkable(c.0, c.1)
    {
      set i, j | 0 <= i < width && 0 <= j < height && !tiles[i, j].blocked :: (i, j)
    }

    /** An L-shaped corridor carved between a and b, along a's row then b's
        column or along a's column then b's row, joins them. */
    lemma CorridorConnects(a: Cell, b: Cell)
      requires Valid()
      requires || (RowCarved(a.0, b.0, a.1) && ColumnCarved(a.1, b.1, b.0))
               || (ColumnCarved(a.1, b.1, a.0) && RowCarved(a.0, b.0, b.1))
      ensures Connected(OpenCells(), a, b)
    {
      var open := OpenCells();
      forall i, y | RowCarved(a.0, b.0, y) && Min(a.0, b.0) <= i <= Max(a.0, b.0) ensures (i, y) in open {
        assert InBounds(i, y) && IsCarved(tiles[i, y]);
      }
      forall x, j | ColumnCarved(a.1, b.1, x) && Min(a.1, b.1) <= j <= Max(a.1, b.1) ensures (x, j) in open {
        assert InBounds(x, j) && IsCarved(tiles[x, j]);
      }
      if RowCarved(a.0, b.0, a.1) && ColumnCarved(a.1, b.1, b.0) {
        RowConnected(open, a.0, b.0, a.1);
        ColumnConnected(open, a.1, b.1, b.0);
        ConnectedTrans(open, a, (b.0, a.1), b);
      } else {
        ColumnConnected(open, a.1, b.1, a.0);
        RowConnected(open, a.0, b.0, b.1);
        ConnectedTrans(open, a, (a.0, b.1), b);
      }
    }

    /** When every cell opened since `before` lies on the L-shaped
        corridor from a to b, and the corridor is carved, all of them are
        joined to a. */
    lemma CorridorReached(a: Cell, b: Cell, rowFirst: bool, before: set<Cell>)
      requires Valid()
      requires if rowFirst then RowCarved(a.0, b.0, a.1) && ColumnCarved(a.1, b.1, b.0)
               else ColumnCarved(a.1, b.1, a.0) && RowCarved(a.0, b.0, b.1)
      requires forall c :: c in OpenCells() && c !in before ==> OnCorridor(c, a, b, rowFirst)
      ensures ReachedFrom(OpenCells(), before, a)
    {
      var open := OpenCells();
      forall i, y | RowCarved(a.0, b.0, y) && Min(a.0, b.0) <= i <= Max(a.0, b.0) ensures (i, y) in open {
        assert InBounds(i, y) && IsCarved(tiles[i, y]);
      }
      forall x, j | ColumnCarved(a.1, b.1, x) && Min(a.1, b.1) <= j <= Max(a.1, b.1) ensures (x, j) in open {
        assert InBounds(x, j) && IsCarved(tiles[x, j]);
      }
      forall c | c in open && c !in before ensures Connected(open, a, c) {
        if rowFirst {
          if c.1 == a.1 && Min(a.0, b.0) <= c.0 <= Max(a.0, b.0) {
            RowConnected(open, a.0, c.0, a.1);
          } else {
            RowConnected(open, a.0, b.0, a.1);
            ColumnConnected(open, a.1, c.1, b.0);
            ConnectedTrans(open, a, (b.0, a.1), c);
          }
        } else {
          if c.0 == a.0 && Min(a.1, b.1) <= c.1 <= Max(a.1, b.1) {
            ColumnConnected(open, a.1, c.1, a.0);
          } else {
            ColumnConnected(open, a.1, b.1, a.0);
            RowConnected(open, a.0, c.0, b.1);
            ConnectedTrans(open, a, (a.0, b.1), c);
          }
        }
      }
    }

    /** A walk over the open cells is a walk the pathfinder can find. */
    lemma ConnectedReachable(s: Cell, e: Cell)
      requires Valid() && Connected(OpenCells(), s, e)
      ensures !Unreachable(s, e)
    {
      var p :| WalkIn(OpenCells(), s, p) && WalkEnd(s, p) == e;
      forall i | 0 <= i < |p| ensures StepOK(s, p, i) {
        assert OpenStep(OpenCells(), s, p, i);
      }
      assert IsWalk(s, p);
    }

    /** Cells joined to s over the walkable cells can all be reached by
        the pathfinder from s. */
    lemma ReachedReachable(s: Cell, before: set<Cell>)
      requires Valid() && ReachedFrom(OpenCells(), before, s)
      ensures forall c :: c in OpenCells() && c !in before ==> !Unreachable(s, c)
    {
      forall c | c in OpenCells() && c !in before ensures !Unreachable(s, c) {
        ConnectedReachable(s, c);
      }
    }

    /** Rooms joined over the walkable cells can all be reached by the
        pathfinder from the centre of the first. */
    lemma JoinedReachable(rs: seq<Rect>)
      requires Valid() && Joined(OpenCells(), rs, 0, |rs|)
      ensures IsWalkable(rs[0].CenterX(), rs[0].CenterY())
      ensures forall k :: 0 <= k < |rs| ==> !Unreachable(Centre(rs[0]), Centre(rs[k]))
    {
      assert Connected(OpenCells(), Centre(rs[0]), Centre(rs[0]));
      forall k | 0 <= k < |rs| ensures !Unreachable(Centre(rs[0]), Centre(rs[k])) {
        ConnectedReachable(Centre(rs[0]), Centre(rs[k]));
      }
    }

    ghost function AllCells(): set<Cell> {
      set i, j | 0 <= i < width && 0 <= j < height :: (i, j)
    }

    /** Every walkable 8-neighbour of a cell of done is in seen. */
    ghost predicate NeighboursSeen(done: set<Cell>, seen: set<Cell>)
      requires Valid()
      reads tiles
    {
      forall c, k :: c in done && 0 <= k < 8 && IsWalkable(Step(c, Offsets8[k]).0, Step(c, Offsets8[k]).1) ==>
        Step(c, Offsets8[k]) in seen
    }

    /** The first k walkable 8-neighbours of c are in seen. */
    ghost predicate SeenUpTo(c: Cell, k: nat, seen: set<Cell>)
      requires Valid() && k <= 8
      reads tiles
    {
      forall j :: 0 <= j < k && IsWalkable(Step(c, Offsets8[j]).0, Step(c, Offsets8[j]).1) ==>
        Step(c, Offsets8[j]) in seen
    }

    /** The first k + 1 walkable neighbours of c are in seen once the first
        k are in a subset of it and so is the next one. */
    lemma SeenUpToNext(c: Cell, k: nat, seen0: set<Cell>, seen: set<Cell>)
      requires Valid() && k < 8 && SeenUpTo(c, k, seen0) && seen0 <= seen
      requires IsWalkable(Step(c, Offsets8[k]).0, Step(c, Offsets8[k]).1) ==> Step(c, Offsets8[k]) in seen
      ensures SeenUpTo(c, k + 1, seen)
    {
    }

    /** A cell whose walkable neighbours have all been seen can join done. */
    lemma NeighboursSeenAdd(done: set<Cell>, seen: set<Cell>, c: Cell)
      requires Valid() && NeighboursSeen(done, seen) && SeenUpTo(c, 8, seen)
      ensures NeighboursSeen(done + {c}, seen)
    {
    }

    /** A set that holds s and every walkable neighbour of its members holds
        the end of every walk from s. */
    lemma {:induction false} WalkStaysInside(s: Cell, p: seq<Cell>, closed: set<Cell>)
      requires Valid() && s in closed && NeighboursSeen(closed, closed) && IsWalk(s, p)
      ensures WalkEnd(s, p) in closed
    {
      if p != [] {
        var q := p[..|p| - 1];
        WalkPrefix(s, p);
        WalkStaysInside(s, q, closed);
        var k := AdjacentIsOffset(WalkEnd(s, q), p[|p| - 1]);
      }
    }

    /** A walk without its last cell is a walk, and that last cell is a
        walkable neighbour of where the shorter walk ends. */
    lemma WalkPrefix(s: Cell, p: seq<Cell>)
      requires Valid() && IsWalk(s, p) && p != []
      ensures IsWalk(s, p[..|p| - 1])
      ensures IsWalkable(p[|p| - 1].0, p[|p| - 1].1) && Adjacent8(WalkEnd(s, p[..|p| - 1]), p[|p| - 1])
    {
      var q := p[..|p| - 1];
      forall i | 0 <= i < |q| ensures StepOK(s, q, i) {
        assert StepOK(s, p, i);
        assert q[i] == p[i];
        if i > 0 { assert q[i - 1] == p[i - 1]; }
      }
      assert StepOK(s, p, |p| - 1);
    }

    /** No walk from s to c is shorter than n. */
    ghost predicate NoShorter(s: Cell, c: Cell, n: nat)
      requires Valid()
      reads tiles
    {
      forall q :: IsWalk(s, q) && WalkEnd(s, q) == c ==> n <= |q|
    }

    /** Every queued path is as short as any walk from s to its cell. */
    ghost predicate Shortest(s: Cell, queue: seq<(int, int, seq<Cell>)>)
      requires Valid()
      reads tiles
    {
      forall k :: 0 <= k < |queue| ==> NoShorter(s, (queue[k].0, queue[k].1), |queue[k].2|)
    }

    /** Every walk from s shorter than l ends in done. */
    ghost predicate ShortDone(s: Cell, l: nat, done: set<Cell>)
      requires Valid()
      reads tiles
    {
      forall q :: IsWalk(s, q) && |q| < l ==> WalkEnd(s, q) in done
    }

    /** A walk no longer than l ends in seen when the shorter walks end in
        done and every walkable neighbour of done is in seen. */
    lemma ShortWalkSeen(s: Cell, q: seq<Cell>, l: nat, done: set<Cell>, seen: set<Cell>)
      requires Valid() && IsWalk(s, q) && |q| <= l && s in seen
      requires ShortDone(s, l, done) && NeighboursSeen(done, seen)
      ensures WalkEnd(s, q) in seen
    {
      if q != [] {
        var r := q[..|q| - 1];
        WalkPrefix(s, q);
        assert WalkEnd(s, r) in done;
        var k := AdjacentIsOffset(WalkEnd(s, r), q[|q| - 1]);
      }
    }

    /** A cell not yet seen, reached by extending a path of the current
        layer, is reached by no shorter walk. */
    lemma ShortestAppend(s: Cell, queue: seq<(int, int, seq<Cell>)>, p: seq<Cell>, next: Cell,
                         done: set<Cell>, seen: set<Cell>)
      requires Valid() && Shortest(s, queue) && s in seen && next !in seen
      requires ShortDone(s, |p|, done) && NeighboursSeen(done, seen)
      ensures Shortest(s, queue + [(next.0, next.1, p + [next])])
    {
      var r := queue + [(next.0, next.1, p + [next])];
      forall q | IsWalk(s, q) && WalkEnd(s, q) == next ensures |p + [next]| <= |q| {
        if |q| <= |p| {
          ShortWalkSeen(s, q, |p|, done, seen);
          assert false;
        }
      }
      forall k | 0 <= k < |r| ensures NoShorter(s, (r[k].0, r[k].1), |r[k].2|) {
        if k < |queue| {
          assert r[k] == queue[k];
        }
      }
    }

    lemma ShortestPop(s: Cell, queue: seq<(int, int, seq<Cell>)>)
      requires Valid() && queue != [] && Shortest(s, queue)
      ensures Shortest(s, queue[1..])
    {
      forall k | 0 <= k < |queue[1..]| ensures NoShorter(s, (queue[1..][k].0, queue[1..][k].1), |queue[1..][k].2|) {
        assert queue[1..][k] == queue[k + 1];
      }
    }

    /** After a cell's neighbours are queued, the walks shorter than the new
        head's path all end in done: a walk as long as the old layer ends
        in a seen cell, which is either done or queued, and a queued cell
        holds a path no longer than that walk, so it cannot sit in a later
        layer. */
    lemma LevelAdvance(s: Cell, l: nat, done: set<Cell>, queue: seq<(int, int, seq<Cell>)>, seen: set<Cell>)
      requires Valid() && s in seen && ShortDone(s, l, done) && NeighboursSeen(done, seen)
      requires Shortest(s, queue) && Layered(queue, l)
      requires forall c :: c in seen && c !in done ==> c in QueueCells(queue)
      ensures queue != [] ==> Layered(queue, |queue[0].2|) && ShortDone(s, |queue[0].2|, done)
    {
      if queue != [] {
        LayeredHead(queue, l);
        forall q | IsWalk(s, q) && |q| < |queue[0].2| ensures WalkEnd(s, q) in done {
          if |q| >= l {
            ShortWalkSeen(s, q, l, done, seen);
          }
        }
      }
    }

    lemma WalkExtend(s: Cell, p: seq<Cell>, c: Cell)
      requires Valid() && IsWalk(s, p) && IsWalkable(c.0, c.1) && Adjacent8(WalkEnd(s, p), c)
      ensures IsWalk(s, p + [c]) && WalkEnd(s, p + [c]) == c
    {
      var q := p + [c];
      forall i | 0 <= i < |q| ensures StepOK(s, q, i) {
        var prev := if i == 0 then s else q[i - 1];
        if i < |p| {
          assert q[i] == p[i];
          assert prev == if i == 0 then s else p[i - 1];
          assert StepOK(s, p, i);
        } else {
          assert q[i] == c;
          assert prev == WalkEnd(s, p);
        }
      }
    }

    /** Every visited cell outside done is queued, except perhaps cur. */
    ghost predicate Pending(done: set<Cell>, cur: Cell, queue: seq<(int, int, seq<Cell>)>, visited: set<Cell>) {
      forall c :: c in visited && c !in done ==> c in QueueCells(queue) || c == cur
    }

    lemma PendingAdd(done: set<Cell>, cur: Cell, queue: seq<(int, int, seq<Cell>)>, visited: set<Cell>)
      requires Pending(done, cur, queue, visited)
      ensures forall c :: c in visited && c !in done + {cur} ==> c in QueueCells(queue)
    {
    }

    /** Every entry of the pathfinder's queue holds a walk from s to its cell, and the cell is visited. */
    ghost predicate QueueOK(s: Cell, queue: seq<(int, int, seq<Cell>)>, visited: set<Cell>)
      requires Valid()
      reads tiles
    {
      forall k :: 0 <= k < |queue| ==>
        IsWalk(s, queue[k].2) && WalkEnd(s, queue[k].2) == (queue[k].0, queue[k].1) && (queue[k].0, queue[k].1) in visited
    }

    /** Queueing a walk to a newly visited cell keeps QueueOK. */
    lemma QueueOKAppend(s: Cell, queue: seq<(int, int, seq<Cell>)>, visited: set<Cell>, p: seq<Cell>, c: Cell)
      requires Valid() && QueueOK(s, queue, visited) && IsWalk(s, p) && WalkEnd(s, p) == c
      ensures QueueOK(s, queue + [(c.0, c.1, p)], visited + {c})
    {
      var q := queue + [(c.0, c.1, p)];
      forall k | 0 <= k < |q|
        ensures IsWalk(s, q[k].2) && WalkEnd(s, q[k].2) == (q[k].0, q[k].1) && (q[k].0, q[k].1) in visited + {c}
      {
        if k < |queue| {
          assert q[k] == queue[k];
        }
      }
    }

    ghost predicate AllWalkable(cells: set<Cell>)
      requires Valid()
      reads tiles
    {
      forall c :: c in cells ==> IsWalkable(c.0, c.1)
    }

    /** The neighbour loop of `get_path` (game.py:301-311): every walkable,
        not yet visited 8-neighbour of (x, y) is marked visited and queued
        with the walk p extended by it. */
    method ExpandNeighbours(s: Cell, x: int, y: int, p: seq<Cell>, queue0: seq<(int, int, seq<Cell>)>,
                            visited0: set<Cell>, ghost done: set<Cell>)
      returns (queue: seq<(int, int, seq<Cell>)>, visited: set<Cell>)
      requires Valid() && QueueOK(s, queue0, visited0) && AllWalkable(visited0)
      requires IsWalk(s, p) && WalkEnd(s, p) == (x, y)
      requires Pending(done, (x, y), queue0, visited0)
      requires NeighboursSeen(done, visited0)
      requires s in visited0 && Shortest(s, queue0) && Layered(queue0, |p|) && ShortDone(s, |p|, done)
      ensures visited0 <= visited && (visited == visited0 ==> queue == queue0)
      ensures QueueOK(s, queue, visited) && AllWalkable(visited)
      ensures forall c :: c in visited && c !in done + {(x, y)} ==> c in QueueCells(queue)
      ensures NeighboursSeen(done + {(x, y)}, visited)
      ensures Shortest(s, queue) && Layered(queue, |p|)
    {
      queue, visited := queue0, visited0;
      for k := 0 to 8
        invariant visited0 <= visited && (visited == visited0 ==> queue == queue0)
        invariant QueueOK(s, queue, visited) && AllWalkable(visited)
        invariant Pending(done, (x, y), queue, visited)
        invariant NeighboursSeen(done, visited)
        invariant SeenUpTo((x, y), k, visited)
        invariant Shortest(s, queue) && Layered(queue, |p|)
      {
        var next := Step((x, y), Offsets8[k]);
        OffsetIsAdjacent((x, y), k);
        ghost var before := visited;
        queue, visited := VisitNeighbour(s, x, y, p, next, queue, visited, done);
        SeenUpToNext((x, y), k, before, visited);
      }
      NeighboursSeenAdd(done, visited, (x, y));
      PendingAdd(done, (x, y), queue, visited);
    }

    /** One step of the neighbour loop of `get_path` (game.py:306-311): a
        walkable, not yet visited neighbour is marked visited and queued
        with the walk p extended by it; anything else changes nothing. */
    method VisitNeighbour(s: Cell, x: int, y: int, p: seq<Cell>, next: Cell, queue0: seq<(int, int, seq<Cell>)>,
                          visited0: set<Cell>, ghost done: set<Cell>)
      returns (queue: seq<(int, int, seq<Cell>)>, visited: set<Cell>)
      requires Valid() && QueueOK(s, queue0, visited0) && AllWalkable(visited0)
      requires IsWalk(s, p) && WalkEnd(s, p) == (x, y) && Adjacent8((x, y), next)
      requires Pending(done, (x, y), queue0, visited0)
      requires NeighboursSeen(done, visited0)
      requires s in visited0 && Shortest(s, queue0) && Layered(queue0, |p|) && ShortDone(s, |p|, done)
      ensures visited == if next !in visited0 && IsWalkable(next.0, next.1) then visited0 + {next} else visited0
      ensures visited == visited0 ==> queue == queue0
      ensures QueueOK(s, queue, visited) && AllWalkable(visited)
      ensures Pending(done, (x, y), queue, visited)
      ensures NeighboursSeen(done, visited)
      ensures Shortest(s, queue) && Layered(queue, |p|)
    {
      queue, visited := queue0, visited0;
      if next !in visited && IsWalkable(next.0, next.1) {
        WalkExtend(s, p, next);
        ShortestAppend(s, queue, p, next, done, visited);
        LayeredAppend(queue, (next.0, next.1, p + [next]), |p|);
        QueueOKAppend(s, queue, visited, p + [next], next);
        QueueCellsAppend(queue, (next.0, next.1, p + [next]));
        visited := visited + {next};
        queue := queue + [(next.0, next.1, p + [next])];
      }
    }

    /** The state `get_path`'s loop keeps (game.py:293-311). Besides the
        queue's walks, done holds the cells whose neighbours were queued and
        every other visited cell is queued. The queue is in breadth-first
        order, each queued path is a shortest walk to its cell, and every
        walk shorter than the head's path ends in done. */
    ghost predicate Searching(s: Cell, e: Cell, queue: seq<(int, int, seq<Cell>)>, visited: set<Cell>, done: set<Cell>)
      requires Valid()
      reads tiles
    {
      && QueueOK(s, queue, visited)
      && s in visited && done <= visited && e !in done
      && AllWalkable(visited)
      && (forall c :: c in visited && c !in done ==> c in QueueCells(queue))
      && NeighboursSeen(done, visited)
      && (done == {} ==> queue == [(s.0, s.1, [])])
      && (done != {} ==> s in done)
      && Shortest(s, queue)
      && (queue != [] ==> Layered(queue, |queue[0].2|) && ShortDone(s, |queue[0].2|, done))
    }

    /** One round of `get_path`'s loop once the head is not the goal
        (game.py:294-311): the head is taken off the queue and its walkable,
        unvisited neighbours are queued behind it. */
    method SearchRound(s: Cell, e: Cell, queue0: seq<(int, int, seq<Cell>)>, visited0: set<Cell>, ghost done0: set<Cell>)
      returns (queue: seq<(int, int, seq<Cell>)>, visited: set<Cell>, ghost done: set<Cell>)
      requires Valid() && Searching(s, e, queue0, visited0, done0)
      requires queue0 != [] && (queue0[0].0, queue0[0].1) != e
      ensures Searching(s, e, queue, visited, done)
      ensures AllCells() - visited < AllCells() - visited0 || (visited == visited0 && |queue| < |queue0|)
    {
      var x, y, p := queue0[0].0, queue0[0].1, queue0[0].2;
      SearchPopped(s, e, queue0, visited0, done0);
      queue, visited := ExpandNeighbours(s, x, y, p, queue0[1..], visited0, done0);
      SearchStep(s, e, queue0, visited0, done0, queue, visited);
      done := done0 + {(x, y)};
    }

    /** With the head taken off, the rest of the queue is what the
        neighbour loop needs: the head holds a walk to its cell, every
        visited cell but the head and done is queued, and the queue is in
        the head's layer. */
    lemma SearchPopped(s: Cell, e: Cell, queue0: seq<(int, int, seq<Cell>)>, visited0: set<Cell>, done0: set<Cell>)
      requires Valid() && Searching(s, e, queue0, visited0, done0) && queue0 != []
      ensures QueueOK(s, queue0[1..], visited0) && AllWalkable(visited0)
      ensures IsWalk(s, queue0[0].2) && WalkEnd(s, queue0[0].2) == (queue0[0].0, queue0[0].1)
      ensures Pending(done0, (queue0[0].0, queue0[0].1), queue0[1..], visited0)
      ensures NeighboursSeen(done0, visited0)
      ensures s in visited0 && Shortest(s, queue0[1..]) && Layered(queue0[1..], |queue0[0].2|)
      ensures ShortDone(s, |queue0[0].2|, done0)
    {
      QueueCellsPop(queue0);
      ShortestPop(s, queue0);
      LayeredPop(queue0, |queue0[0].2|);
      forall k | 0 <= k < |queue0[1..]| ensures
        IsWalk(s, queue0[1..][k].2) && WalkEnd(s, queue0[1..][k].2) == (queue0[1..][k].0, queue0[1..][k].1)
        && (queue0[1..][k].0, queue0[1..][k].1) in visited0
      {
        assert queue0[1..][k] == queue0[k + 1];
      }
    }

    /** Once the head's neighbours are queued, the loop's state holds again
        with the head done, and fewer cells are left unseen or the queue is
        shorter. */
    lemma SearchStep(s: Cell, e: Cell, queue0: seq<(int, int, seq<Cell>)>, visited0: set<Cell>, done0: set<Cell>,
                     queue: seq<(int, int, seq<Cell>)>, visited: set<Cell>)
      requires Valid() && Searching(s, e, queue0, visited0, done0)
      requires queue0 != [] && (queue0[0].0, queue0[0].1) != e
      requires visited0 <= visited && (visited == visited0 ==> queue == queue0[1..])
      requires QueueOK(s, queue, visited) && AllWalkable(visited)
      requires forall c :: c in visited && c !in done0 + {(queue0[0].0, queue0[0].1)} ==> c in QueueCells(queue)
      requires NeighboursSeen(done0 + {(queue0[0].0, queue0[0].1)}, visited)
      requires Shortest(s, queue) && Layered(queue, |queue0[0].2|)
      ensures Searching(s, e, queue, visited, done0 + {(queue0[0].0, queue0[0].1)})
      ensures AllCells() - visited < AllCells() - visited0 || (visited == visited0 && |queue| < |queue0|)
    {
      var done := done0 + {(queue0[0].0, queue0[0].1)};
      LevelAdvance(s, |queue0[0].2|, done, queue, visited);
      if visited != visited0 {
        FewerUnseen(visited0, visited);
      }
    }

    /** Seeing a new walkable cell leaves fewer cells of the grid unseen. */
    lemma FewerUnseen(seen0: set<Cell>, seen: set<Cell>)
      requires Valid() && seen0 <= seen && seen != seen0 && AllWalkable(seen)
      ensures AllCells() - seen < AllCells() - seen0
    {
      var c :| c in seen && c !in seen0;
      assert IsWalkable(c.0, c.1);
      assert c in AllCells() - seen0;
    }

    /** The queue `get_path` starts from: the start alone, with no path. */
    lemma SearchStart(s: Cell, e: Cell)
      requires Valid() && IsWalkable(s.0, s.1)
      ensures Searching(s, e, [(s.0, s.1, [])], {s}, {})
    {
      var queue := [(s.0, s.1, [])];
      assert (queue[0].0, queue[0].1) in QueueCells(queue);
      assert IsWalk(s, []);
    }

    /** A head at the goal holds a walk to it that no walk beats, and the
        empty walk when the start is the goal. */
    lemma SearchFound(s: Cell, e: Cell, queue: seq<(int, int, seq<Cell>)>, visited: set<Cell>, done: set<Cell>)
      requires Valid() && Searching(s, e, queue, visited, done) && queue != [] && (queue[0].0, queue[0].1) == e
      ensures IsWalk(s, queue[0].2) && WalkEnd(s, queue[0].2) == e
      ensures forall q :: IsWalk(s, q) && WalkEnd(s, q) == e ==> |queue[0].2| <= |q|
      ensures s == e ==> queue[0].2 == []
    {
    }

    /** An exhausted queue means no walk from s reaches e. */
    lemma SearchExhausted(s: Cell, e: Cell, visited: set<Cell>, done: set<Cell>)
      requires Valid() && Searching(s, e, [], visited, done)
      ensures Unreachable(s, e)
    {
      WalkStaysInside(s, [], done);
      forall q | IsWalk(s, q) ensures WalkEnd(s, q) != e {
        WalkStaysInside(s, q, done);
      }
    }

    /** `get_path` (game.py:286-313): breadth-first search over walkable
        8-neighbours. A path is returned exactly when both ends are walkable
        and some walk joins them; it leaves the start out, ends at the goal,
        is no longer than any walk between them, and is empty when start and
        goal coincide. */
    method GetPath(startX: int, startY: int, endX: int, endY: int) returns (path: Option<seq<Cell>>)
      requires Valid()
      ensures path.Some? ==>
        && IsWalkable(startX, startY) && IsWalkable(endX, endY)
        && IsWalk((startX, startY), path.value) && WalkEnd((startX, startY), path.value) == (endX, endY)
      ensures path.Some? ==> forall q :: IsWalk((startX, startY), q) && WalkEnd((startX, startY), q) == (endX, endY) ==>
        |path.value| <= |q|
      ensures path.None? ==>
        !IsWalkable(startX, startY) || !IsWalkable(endX, endY) || Unreachable((startX, startY), (endX, endY))
      ensures (startX, startY) == (endX, endY) && IsWalkable(startX, startY) ==> path == Some([])
    {
      if !IsWalkable(startX, startY) || !IsWalkable(endX, endY) {
        return None;
      }
      var s, e := (startX, startY), (endX, endY);
      var queue: seq<(int, int, seq<Cell>)> := [(startX, startY, [])];
      var visited: set<Cell> := {s};
      ghost var done: set<Cell> := {};
      SearchStart(s, e);
      while queue != []
        invariant Searching(s, e, queue, visited, done)
        decreases AllCells() - visited, |queue|
      {
        var x, y, p := queue[0].0, queue[0].1, queue[0].2;
        if x == endX && y == endY {
          SearchFound(s, e, queue, visited, done);
          return Some(p);
        }
        queue, visited, done := SearchRound(s, e, queue, visited, done);
      }
      SearchExhausted(s, e, visited, done);
      return None;
    }
  }

  /** A new floor as `setup_floor` builds it (game.py:843-844): a wall
      grid of the configured size, then `generate_bsp`. The player's start
      and the stairs lie on walkable cells of the map. */
  method NewFloor(floor: int, rng: Random) returns (m: GameMap)
    modifies rng
    ensures fresh(m) && fresh(m.tiles) && m.Valid()
    ensures m.width == MAP_WIDTH && m.height == MAP_HEIGHT && m.dungeonLevel == floor
    ensures m.InBounds(m.playerStartX, m.playerStartY) && m.IsWalkable(m.playerStartX, m.playerStartY)
    ensures m.InBounds(m.stairsX, m.stairsY) && m.tiles[m.stairsX, m.stairsY] == StairsTile
    // Every walkable cell of the new floor is reachable from the player's start.
    ensures forall c :: c in m.OpenCells() ==> !m.Unreachable((m.playerStartX, m.playerStartY), c)
  {
    m := new GameMap(MAP_WIDTH, MAP_HEIGHT, floor);
    assert m.OpenCells() == {};
    m.GenerateBsp(rng);
  }

  /** The smallest node extent whose room stays inside the node: a room of
      the minimum size after the minimum offset of ROOM_MAX_PADDING. */
  const LEAF_MIN_EXTENT: int := ROOM_MIN_SIZE + ROOM_MAX_PADDING

  /** `a / b >= 1.25` on exact rationals (game.py:331, 333). */
  predicate RatioAtLeast125(a: int, b: int)
    requires b != 0
  {
    if b > 0 then 4 * a >= 5 * b else 4 * a <= 5 * b
  }

  /** The axis `split` cuts along (game.py:329-334): a coin toss, overridden
      when one side is at least 1.25 times the other. */
  function SplitsHorizontally(w: int, h: int, coin: bool): bool
    requires (w > h ==> h != 0) && (h > w ==> w != 0)
  {
    if w > h && RatioAtLeast125(w, h) then true
    else if h > w && RatioAtLeast125(h, w) then false
    else coin
  }

  /** a and b tile p, cut across its height (horizontal) or its width. */
  predicate Halves(p: Rect, a: Rect, b: Rect, horizontal: bool) {
    if horizontal then a == Rect(p.x, p.y, p.w, a.h) && b == Rect(p.x, p.y + a.h, p.w, p.h - a.h)
    else a == Rect(p.x, p.y, a.w, p.h) && b == Rect(p.x + a.w, p.y, p.w - a.w, p.h)
  }

  predicate RectWithin(a: Rect, b: Rect) {
    b.x <= a.x && b.y <= a.y && a.x + a.w <= b.x + b.w && a.y + a.h <= b.y + b.h
  }

  /** The shape every node of a generated BSP tree keeps: big enough for a
      room, both children or neither (`split` makes two), children inside
      it and smaller, a room inside it. */
  ghost predicate NodeOK(n: BSPLeaf, U: set<BSPLeaf>)
    reads n
  {
    && n.w >= LEAF_MIN_EXTENT && n.h >= LEAF_MIN_EXTENT
    && (n.child1 == null <==> n.child2 == null)
    && (n.child1 != null ==>
          n.child1 in U && RectWithin(n.child1.Bounds(), n.Bounds()) && n.child1.w + n.child1.h < n.w + n.h)
    && (n.child2 != null ==>
          n.child2 in U && RectWithin(n.child2.Bounds(), n.Bounds()) && n.child2.w + n.child2.h < n.w + n.h)
    && (n.room.Some? ==>
          RectWithin(n.room.value, n.Bounds()) && n.room.value.w >= ROOM_MIN_SIZE && n.room.value.h >= ROOM_MIN_SIZE)
  }

  /** a and b share no cell: one lies wholly to one side of the other. */
  predicate Apart(a: Rect, b: Rect) {
    a.x + a.w <= b.x || b.x + b.w <= a.x || a.y + a.h <= b.y || b.y + b.h <= a.y
  }

  /** The two children of every node of U lie apart, as `split` cuts them. */
  ghost predicate SiblingsApart(U: set<BSPLeaf>)
    reads U`child1, U`child2
  {
    forall n :: n in U && n.child1 != null && n.child2 != null ==> Apart(n.child1.Bounds(), n.child2.Bounds())
  }

  /** Every room held by a node of U is in the room list rs. */
  ghost predicate RoomsListed(U: set<BSPLeaf>, rs: seq<Rect>)
    reads U`room
  {
    forall n :: n in U && n.room.Some? ==> n.room.value in rs
  }

  /** No room of rs lies inside b. */
  predicate NoRoomWithin(rs: seq<Rect>, b: Rect) {
    forall k :: 0 <= k < |rs| ==> !RectWithin(rs[k], b)
  }

  ghost predicate TreeOK(U: set<BSPLeaf>)
    reads U
  {
    forall n {:trigger NodeOK(n, U)} :: n in U ==> NodeOK(n, U)
  }

  ghost predicate InMap(U: set<BSPLeaf>, width: int, height: int) {
    forall n :: n in U ==> RectInMap(n.Bounds(), width, height)
  }

  /** The splitting loop of `generate_bsp` (game.py:221-230): a work queue,
      starting from a root covering the whole map, from which each node is
      taken once and split, its children queued in turn. The result is a
      well-formed tree of fresh nodes inside the map. */
  method SplitAll(width: int, height: int, rng: Random) returns (root: BSPLeaf, ghost U: set<BSPLeaf>)
    requires width >= LEAF_MIN_EXTENT && height >= LEAF_MIN_EXTENT
    modifies rng
    ensures root in U && TreeOK(U) && InMap(U, width, height) && root.Bounds() == Rect(0, 0, width, height)
    ensures SiblingsApart(U) && forall n :: n in U ==> fresh(n) && n.room == None
  {
    root := new BSPLeaf(0, 0, width, height);
    U := {root};
    var queue := [root];
    WeightNonnegative(queue);
    while queue != []
      invariant root in U && TreeOK(U) && InMap(U, width, height) && root.Bounds() == Rect(0, 0, width, height)
      invariant SiblingsApart(U) && forall n :: n in U ==> fresh(n) && n.room == None
      invariant forall k :: 0 <= k < |queue| ==> queue[k] in U
      invariant Weight(queue) >= 0
      decreases Weight(queue)
    {
      queue, U := SplitFirst(queue, rng, U, width, height);
    }
  }

  /** One round of the splitting loop (game.py:227-230): the first node of
      the queue is taken off and split, and on success its two children are
      queued. The tree stays well-formed and inside the map, and the queue's
      weight drops. */
  method SplitFirst(queue0: seq<BSPLeaf>, rng: Random, ghost U0: set<BSPLeaf>, ghost width: int, ghost height: int)
    returns (queue: seq<BSPLeaf>, ghost U: set<BSPLeaf>)
    requires queue0 != [] && TreeOK(U0) && InMap(U0, width, height)
    requires forall k :: 0 <= k < |queue0| ==> queue0[k] in U0
    requires SiblingsApart(U0) && forall n :: n in U0 ==> n.room == None
    modifies queue0[0], rng
    ensures U0 <= U && TreeOK(U) && InMap(U, width, height)
    ensures SiblingsApart(U) && forall n :: n in U ==> n.room == None
    ensures forall n :: n in U && n !in U0 ==> fresh(n)
    ensures forall k :: 0 <= k < |queue| ==> queue[k] in U
    ensures 0 <= Weight(queue) < Weight(queue0)
  {
    var leaf := queue0[0];
    assert leaf in U0 && NodeOK(leaf, U0);
    ghost var rest := Weight(queue0[1..]);
    assert Weight(queue0) == LeafWeight(leaf) + rest;
    assert LeafWeight(leaf) >= 1 by {
      WeightNonnegative([leaf]);
    }
    queue, U := queue0[1..], U0;
    var split := leaf.Split(rng, U);
    if split {
      var c1, c2 := leaf.child1, leaf.child2;
      WeightAppend(queue, [c1, c2]);
      SplitWeight(leaf, c1, c2);
      queue := queue + [c1, c2];
      U := U + {c1, c2};
    }
    forall k | 0 <= k < |queue| ensures queue[k].w >= 1 && queue[k].h >= 1 {
      assert NodeOK(queue[k], U);
    }
    WeightNonnegative(queue);
    assert Weight(queue) < LeafWeight(leaf) + rest;
  }

  /** A measure of the split queue that each successful split lowers: a
      leaf of area A weighs 2A - 1, and its two children share its area. */
  function Weight(q: seq<BSPLeaf>): int {
    if q == [] then 0 else LeafWeight(q[0]) + Weight(q[1..])
  }

  function LeafWeight(l: BSPLeaf): int {
    2 * l.w * l.h - 1
  }

  lemma {:induction false} WeightAppend(q: seq<BSPLeaf>, r: seq<BSPLeaf>)
    ensures Weight(q + r) == Weight(q) + Weight(r)
  {
    if q == [] {
      assert q + r == r;
    } else {
      assert (q + r)[1..] == q[1..] + r;
      WeightAppend(q[1..], r);
    }
  }

  lemma {:induction false} WeightNonnegative(q: seq<BSPLeaf>)
    requires forall k :: 0 <= k < |q| ==> q[k].w >= 1 && q[k].h >= 1
    ensures Weight(q) >= 0 && (q != [] ==> LeafWeight(q[0]) >= 1)
  {
    if q != [] {
      assert q[0].w * q[0].h >= 1 * q[0].h;
      assert LeafWeight(q[0]) >= 1;
      WeightNonnegative(q[1..]);
    }
  }

  lemma SplitWeight(p: BSPLeaf, a: BSPLeaf, b: BSPLeaf)
    requires a.w >= 1 && a.h >= 1 && b.w >= 1 && b.h >= 1
    requires Halves(p.Bounds(), a.Bounds(), b.Bounds(), true) || Halves(p.Bounds(), a.Bounds(), b.Bounds(), false)
    ensures Weight([a, b]) < LeafWeight(p)
  {
    assert Weight([a, b]) == LeafWeight(a) + Weight([b]);
    assert Weight([b]) == LeafWeight(b);
    if Halves(p.Bounds(), a.Bounds(), b.Bounds(), true) {
      assert a.w * a.h + b.w * b.h == p.w * (a.h + b.h);
    } else {
      assert a.w * a.h + b.w * b.h == (a.w + b.w) * p.h;
    }
  }

  /** m lies in the subtree of U rooted at n: it is n or lies below one of
      n's children. A child is followed only when it is smaller than its
      parent, as in every well-formed tree. */
  ghost predicate Below(m: BSPLeaf, n: BSPLeaf, U: set<BSPLeaf>)
    reads U`child1, U`child2
    decreases n.w + n.h
  {
    n in U &&
    (|| m == n
     || (n.child1 != null && 0 <= n.child1.w + n.child1.h < n.w + n.h && Below(m, n.child1, U))
     || (n.child2 != null && 0 <= n.child2.w + n.child2.h < n.w + n.h && Below(m, n.child2, U)))
  }

  /** r is the room of a node in the subtree of U rooted at n. */
  ghost predicate RoomBelow(r: Rect, n: BSPLeaf, U: set<BSPLeaf>)
    reads U`child1, U`child2, U`room
  {
    exists m :: m in U && m.room == Some(r) && Below(m, n, U)
  }

  /** The rooms of a subtree are in a list that holds every room of the tree. */
  lemma ListedRooms(U: set<BSPLeaf>, rs: seq<Rect>, n: BSPLeaf)
    requires RoomsListed(U, rs)
    ensures forall r :: RoomBelow(r, n, U) ==> r in rs
  {
    forall r | RoomBelow(r, n, U) ensures r in rs {
      var m :| m in U && m.room == Some(r) && Below(m, n, U);
    }
  }

  /** The rooms rs[lo..] lie inside b and have at least the minimum size. */
  predicate RoomsInside(rs: seq<Rect>, lo: int, b: Rect) {
    forall k :: 0 <= k < |rs| && lo <= k ==> RectWithin(rs[k], b) && rs[k].w >= ROOM_MIN_SIZE && rs[k].h >= ROOM_MIN_SIZE
  }

  /** Every cell of the carved interiors of the rooms rs[lo..] that lies on
      a width x height grid is in `open`. */
  ghost predicate InteriorsOpen(open: set<Cell>, rs: seq<Rect>, lo: int, width: int, height: int) {
    forall k, i, j :: 0 <= k < |rs| && lo <= k && InInterior(rs[k], i, j) && 0 <= i < width && 0 <= j < height ==> (i, j) in open
  }

  /** Rooms outside a node are outside each part of it. */
  lemma NoRoomWithinShrink(rs: seq<Rect>, inner: Rect, outer: Rect)
    requires NoRoomWithin(rs, outer) && RectWithin(inner, outer)
    ensures NoRoomWithin(rs, inner)
  {
  }

  /** Once the first child's rooms are added, no room lies inside the
      second child: the old rooms are outside the parent, the new ones
      inside the first child, which lies apart from the second. */
  lemma NoRoomWithinBeside(rs0: seq<Rect>, rs1: seq<Rect>, outer: Rect, b1: Rect, b2: Rect)
    requires NoRoomWithin(rs0, outer) && rs0 <= rs1
    requires RoomsInside(rs1, |rs0|, b1) && RectWithin(b2, outer) && Apart(b1, b2)
    ensures NoRoomWithin(rs1, b2)
  {
    forall k | 0 <= k < |rs1| ensures !RectWithin(rs1[k], b2) {
      if k < |rs0| {
        assert rs1[k] == rs0[k];
      }
    }
  }

  /** After both children of a node got their rooms (rs0 the rooms before,
      rs1 after the first child, rs after the second), a walk between a room
      r1 of the first child and a room r2 of the second joins all the new
      rooms: r1 is among the first child's, r2 among the second child's. */
  lemma JoinChildRuns(rs0: seq<Rect>, rs1: seq<Rect>, rs: seq<Rect>, open1: set<Cell>, open2: set<Cell>, open: set<Cell>,
                      outer: Rect, b1: Rect, b2: Rect, r1: Rect, r2: Rect)
    requires rs0 <= rs1 <= rs && NoRoomWithin(rs0, outer)
    requires Joined(open1, rs1, |rs0|, |rs1|) && Joined(open2, rs, |rs1|, |rs|) && open1 <= open && open2 <= open
    requires RoomsInside(rs1, |rs0|, b1) && RoomsInside(rs, |rs1|, b2)
    requires RectWithin(b1, outer) && RectWithin(b2, outer) && Apart(b1, b2)
    requires r1 in rs && RectWithin(r1, b1) && r1.w >= 1 && r1.h >= 1
    requires r2 in rs && RectWithin(r2, b2) && r2.w >= 1 && r2.h >= 1
    requires Connected(open, Centre(r1), Centre(r2))
    ensures Joined(open, rs, |rs0|, |rs|)
    ensures Connected(open, Centre(rs[|rs0|]), Centre(r1))
  {
    var k1 :| 0 <= k1 < |rs| && rs[k1] == r1;
    var k2 :| 0 <= k2 < |rs| && rs[k2] == r2;
    // An old room lies outside the node, a room of one child outside the other.
    assert forall k :: 0 <= k < |rs0| ==> rs0[k] == rs[k];
    assert forall k :: 0 <= k < |rs1| ==> rs1[k] == rs[k];
    JoinedGrow(open1, open, rs1, rs, |rs0|, |rs1|);
    JoinedGrow(open2, open, rs, rs, |rs1|, |rs|);
    JoinedMerge(open, rs, |rs0|, |rs1|, |rs|, k1, k2);
  }

  /** The rooms both children of a node added (rs0 the rooms before, rs1
      after the first child, rs after the second) lie inside the node and
      keep their interiors open. */
  lemma ChildRunsInside(rs0: seq<Rect>, rs1: seq<Rect>, rs: seq<Rect>, open1: set<Cell>, open2: set<Cell>, open: set<Cell>,
                        width: int, height: int, outer: Rect, b1: Rect, b2: Rect)
    requires rs0 <= rs1 <= rs && open1 <= open && open2 <= open
    requires RoomsInside(rs1, |rs0|, b1) && RoomsInside(rs, |rs1|, b2) && RectWithin(b1, outer) && RectWithin(b2, outer)
    requires InteriorsOpen(open1, rs1, |rs0|, width, height) && InteriorsOpen(open2, rs, |rs1|, width, height)
    ensures RoomsInside(rs, |rs0|, outer) && InteriorsOpen(open, rs, |rs0|, width, height)
  {
    forall k | |rs0| <= k < |rs1| ensures rs[k] == rs1[k] {
    }
  }

  /** A node of the BSP tree (game.py:316-400). Its extent never changes;
      `split` gives it children and `create_rooms` gives a leaf its room. */
  class BSPLeaf {
    const x: int
    const y: int
    const w: int
    const h: int
    var child1: BSPLeaf?
    var child2: BSPLeaf?
    var room: Option<Rect>

    /** `BSPLeaf(x, y, w, h)` (game.py:318-323). */
    constructor (x: int, y: int, w: int, h: int)
      ensures this.x == x && this.y == y && this.w == w && this.h == h
      ensures child1 == null && child2 == null && room == None
    {
      this.x, this.y, this.w, this.h := x, y, w, h;
      child1, child2 := null, null;
      room := None;
    }

    function Bounds(): Rect {
      Rect(x, y, w, h)
    }

    /** `split` (game.py:325-349). A node that already has children is left
        alone. Otherwise one coin is drawn; the side to cut is the height
        when splitting horizontally, else the width; the split happens
        exactly when that side is at least twice the minimum leaf size, and
        then two fresh children tile the node, each at least the minimum
        leaf size in both directions. */
    method Split(rng: Random, ghost U: set<BSPLeaf>) returns (ok: bool)
      requires child1 == null && child2 == null ==> (w > h ==> h != 0) && (h > w ==> w != 0)
      modifies this`child1, this`child2, rng
      ensures old(child1) != null || old(child2) != null ==> !ok && rng.drawn == old(rng.drawn)
      ensures !ok ==> child1 == old(child1) && child2 == old(child2)
      ensures old(child1) == null && old(child2) == null ==>
        var horizontal := SplitsHorizontally(w, h, ChanceOf(50, old(rng.Peek())));
        && (ok <==> (if horizontal then h else w) - BSP_MIN_LEAF_SIZE >= BSP_MIN_LEAF_SIZE)
        && (ok ==> child1 != null && child2 != null && Halves(Bounds(), child1.Bounds(), child2.Bounds(), horizontal))
      ensures ok ==>
        && child1 != null && child2 != null && fresh(child1) && fresh(child2) && child1 != child2
        && child1.child1 == null && child1.child2 == null && child1.room == None
        && child2.child1 == null && child2.child2 == null && child2.room == None
      ensures ok && w > 0 && h > 0 ==>
        child1.w >= BSP_MIN_LEAF_SIZE && child1.h >= BSP_MIN_LEAF_SIZE &&
        child2.w >= BSP_MIN_LEAF_SIZE && child2.h >= BSP_MIN_LEAF_SIZE
      ensures ok ==> RectWithin(child1.Bounds(), Bounds()) && RectWithin(child2.Bounds(), Bounds())
      ensures ok ==> Apart(child1.Bounds(), child2.Bounds())
      // A well-formed tree stays well-formed with the new children added.
      ensures this in U && old(TreeOK(U)) ==> TreeOK(if ok then U + {child1, child2} else U)
      ensures old(SiblingsApart(U)) ==> SiblingsApart(if ok then U + {child1, child2} else U)
    {
      if child1 != null || child2 != null {
        return false;
      }
      var horizontal := rng.Chance(50);
      horizontal := SplitsHorizontally(w, h, horizontal);
      var maxSize := (if horizontal then h else w) - BSP_MIN_LEAF_SIZE;
      if maxSize < BSP_MIN_LEAF_SIZE {
        return false;
      }
      var pos := rng.RandInt(BSP_MIN_LEAF_SIZE, maxSize);
      Divide(horizontal, pos, U);
      return true;
    }

    /** The cut of `split` (game.py:342-347): two fresh children at `pos`
        along the height (horizontal) or the width tile this node. */
    method Divide(horizontal: bool, pos: int, ghost U: set<BSPLeaf>)
      requires child1 == null && child2 == null
      requires BSP_MIN_LEAF_SIZE <= pos <= (if horizontal then h else w) - BSP_MIN_LEAF_SIZE
      modifies this`child1, this`child2
      ensures child1 != null && child2 != null && fresh(child1) && fresh(child2) && child1 != child2
      ensures Halves(Bounds(), child1.Bounds(), child2.Bounds(), horizontal)
      ensures (if horizontal then child1.h else child1.w) == pos
      ensures child1.child1 == null && child1.child2 == null && child1.room == None
      ensures child2.child1 == null && child2.child2 == null && child2.room == None
      ensures RectWithin(child1.Bounds(), Bounds()) && RectWithin(child2.Bounds(), Bounds())
      ensures Apart(child1.Bounds(), child2.Bounds())
      ensures this in U && old(TreeOK(U)) ==> TreeOK(U + {child1, child2})
      ensures old(SiblingsApart(U)) ==> SiblingsApart(U + {child1, child2})
    {
      var b1 := if horizontal then Rect(x, y, w, pos) else Rect(x, y, pos, h);
      var b2 := if horizontal then Rect(x, y + pos, w, h - pos) else Rect(x + pos, y, w - pos, h);
      child1 := new BSPLeaf(b1.x, b1.y, b1.w, b1.h);
      child2 := new BSPLeaf(b2.x, b2.y, b2.w, b2.h);
      if this in U && old(TreeOK(U)) {
        ghost var V := U + {child1, child2};
        forall n | n in U ensures NodeOK(n, V) {
          assert old(NodeOK(n, U));
          if n != this {
            assert n.child1 == old(n.child1) && n.child2 == old(n.child2) && n.room == old(n.room);
          }
        }
        assert NodeOK(child1, V) && NodeOK(child2, V);
      }
    }

    /** Some node of the subtree rooted here holds a room, as the tree's
        child links and rooms say. */
    ghost predicate HasRoom(U: set<BSPLeaf>)
      reads U`child1, U`child2, U`room
    {
      exists m :: m in U && m.room.Some? && Below(m, this, U)
    }

    /** A node of a well-formed tree has a room below it exactly when it
        holds one or a child has one below it. */
    lemma HasRoomUnfold(U: set<BSPLeaf>)
      requires this in U && TreeOK(U)
      ensures HasRoom(U) <==>
        || room.Some?
        || (child1 != null && child1.HasRoom(U))
        || (child2 != null && child2.HasRoom(U))
    {
      assert NodeOK(this, U);
      if child1 != null {
        assert NodeOK(child1, U);
      }
      if child2 != null {
        assert NodeOK(child2, U);
      }
      if room.Some? {
        assert Below(this, this, U);
      }
      if child1 != null && child1.HasRoom(U) {
        var m :| m in U && m.room.Some? && Below(m, child1, U);
        assert Below(m, this, U);
      }
      if child2 != null && child2.HasRoom(U) {
        var m :| m in U && m.room.Some? && Below(m, child2, U);
        assert Below(m, this, U);
      }
    }

    /** `get_room` (game.py:376-388): the node's own room if it has one,
        else a room of one of its subtrees, chosen by one random draw when
        both have one. None exactly when the subtree holds no room. */
    method GetRoom(rng: Random, ghost U: set<BSPLeaf>) returns (r: Option<Rect>)
      requires this in U && TreeOK(U)
      modifies rng
      decreases w + h
      ensures r.Some? ==> RoomBelow(r.value, this, U)
      ensures r.Some? ==> RectWithin(r.value, Bounds()) && r.value.w >= ROOM_MIN_SIZE && r.value.h >= ROOM_MIN_SIZE
      ensures r.None? <==> !HasRoom(U)
      ensures room.Some? ==> r == room
    {
      assert NodeOK(this, U);
      HasRoomUnfold(U);
      // A room is a truthy pygame Rect: rooms are never empty (NodeOK).
      if room.Some? {
        return room;
      }
      var room1, room2 := None, None;
      if child1 != null {
        room1 := child1.GetRoom(rng, U);
      }
      if child2 != null {
        room2 := child2.GetRoom(rng, U);
      }
      if room1.Some? && room2.Some? {
        var pick := rng.RandInt(0, 1);
        r := if pick == 0 then room1 else room2;
      } else if room1.Some? {
        r := room1;
      } else if room2.Some? {
        r := room2;
      } else {
        r := None;
      }
    }

    /** `connect_rooms` (game.py:390-400): an L-shaped corridor between the
        two room centres, horizontal leg first or vertical leg first as one
        coin decides (the ghost rowFirst says which). Both legs end up
        carved, walls stay blocking, no walkable cell is closed and every
        cell opened lies on the corridor. */
    method ConnectRooms(level: GameMap, room1: Rect, room2: Rect, rng: Random) returns (ghost rowFirst: bool)
      requires level.Valid() && level.WallsBlocked()
      requires level.InBounds(room1.CenterX(), room1.CenterY()) && level.InBounds(room2.CenterX(), room2.CenterY())
      modifies level.tiles, rng
      ensures level.WallsBlocked()
      ensures forall i, j :: 0 <= i < level.width && 0 <= j < level.height && !old(level.tiles[i, j]).blocked ==>
        !level.tiles[i, j].blocked
      ensures
        var (x1, y1, x2, y2) := (room1.CenterX(), room1.CenterY(), room2.CenterX(), room2.CenterY());
        || (level.RowCarved(x1, x2, y1) && level.ColumnCarved(y1, y2, x2))
        || (level.ColumnCarved(y1, y2, x1) && level.RowCarved(x1, x2, y2))
      ensures
        var (x1, y1, x2, y2) := (room1.CenterX(), room1.CenterY(), room2.CenterX(), room2.CenterY());
        if rowFirst then level.RowCarved(x1, x2, y1) && level.ColumnCarved(y1, y2, x2)
        else level.ColumnCarved(y1, y2, x1) && level.RowCarved(x1, x2, y2)
      ensures forall c :: c in level.OpenCells() && c !in old(level.OpenCells()) ==>
        OnCorridor(c, Centre(room1), Centre(room2), rowFirst)
    {
      var x1, y1 := room1.CenterX(), room1.CenterY();
      var x2, y2 := room2.CenterX(), room2.CenterY();
      var coin := rng.Chance(50);
      rowFirst := coin;
      ghost var open0 := level.OpenCells();
      if coin {
        level.CreateHTunnel(x1, x2, y1, rng);
        ghost var open1 := level.OpenCells();
        level.CreateVTunnel(y1, y2, x2, rng);
        RowFirstLegs(open0, open1, level.OpenCells(), x1, y1, x2, y2);
      } else {
        level.CreateVTunnel(y1, y2, x1, rng);
        ghost var open1 := level.OpenCells();
        level.CreateHTunnel(x1, x2, y2, rng);
        ColumnFirstLegs(open0, open1, level.OpenCells(), x1, y1, x2, y2);
      }
    }

    /** The four draws of the leaf case of `create_rooms` (game.py:364-367):
        a width and height between ROOM_MIN_SIZE and the leaf's size less
        the padding, and an offset of at least the padding. The room fits
        inside the leaf, even when the leaf is too small for the padding on
        both sides. */
    method ChooseRoom(rng: Random) returns (r: Rect)
      requires w >= LEAF_MIN_EXTENT && h >= LEAF_MIN_EXTENT
      modifies rng
      ensures RectWithin(r, Bounds()) && r.w >= ROOM_MIN_SIZE && r.h >= ROOM_MIN_SIZE
      ensures r.x >= x + ROOM_MAX_PADDING && r.y >= y + ROOM_MAX_PADDING
    {
      var pad := ROOM_MAX_PADDING;
      var roomW := rng.RandInt(ROOM_MIN_SIZE, Max(ROOM_MIN_SIZE, w - pad * 2));
      var roomH := rng.RandInt(ROOM_MIN_SIZE, Max(ROOM_MIN_SIZE, h - pad * 2));
      var offsetX := rng.RandInt(pad, Max(pad, w - roomW - pad));
      var offsetY := rng.RandInt(pad, Max(pad, h - roomH - pad));
      // The source returns here when a dimension is below 1; rooms are at
      // least ROOM_MIN_SIZE wide and high, so it never does.
      r := Rect(x + offsetX, y + offsetY, roomW, roomH);
    }

    /** The leaf case of `create_rooms` (game.py:364-374): a room of random
        size at a random offset inside the padding, carved and appended to
        the map's room list. It lies inside this leaf, its interior becomes
        walkable, and no other tile, room or node changes. */
    method PlaceRoom(level: GameMap, rng: Random, ghost U: set<BSPLeaf>)
      requires this in U && TreeOK(U) && RectInMap(Bounds(), level.width, level.height)
      requires SiblingsApart(U) && RoomsListed(U, level.rooms) && NoRoomWithin(level.rooms, Bounds())
      requires level.Valid() && level.WallsBlocked()
      modifies this`room, level`rooms, level.tiles, rng
      ensures TreeOK(U) && level.WallsBlocked()
      ensures SiblingsApart(U) && RoomsListed(U, level.rooms)
      ensures forall n :: n in U && old(n.room).Some? ==> n.room == old(n.room)
      ensures old(level.OpenCells()) <= level.OpenCells()
      ensures Joined(level.OpenCells(), level.rooms, |old(level.rooms)|, |level.rooms|)
      ensures |level.rooms| == |old(level.rooms)| + 1 && old(level.rooms) < level.rooms
      ensures room == Some(level.rooms[|level.rooms| - 1]) && level.RoomsOpen(|old(level.rooms)|)
      ensures RectWithin(room.value, Bounds()) && room.value.w >= ROOM_MIN_SIZE && room.value.h >= ROOM_MIN_SIZE
      ensures forall i, j :: 0 <= i < level.width && 0 <= j < level.height && !old(level.tiles[i, j]).blocked ==>
        !level.tiles[i, j].blocked
      // Every cell the room opened is joined to its centre.
      ensures ReachedFrom(level.OpenCells(), old(level.OpenCells()), Centre(room.value))
    {
      assert NodeOK(this, U);
      // A room here would lie inside this leaf, and no listed room does.
      assert room.None?;
      ghost var open0 := level.OpenCells();
      var r := ChooseRoom(rng);
      room := Some(r);
      level.CreateRoom(r);
      level.rooms := level.rooms + [r];
      CentreIsCarved(r);
      ConnectedRefl(level.OpenCells(), Centre(r));
      RoomReached(level.OpenCells(), open0, r, level.width, level.height);
    }

    /** The corridor step of `create_rooms` (game.py:357-361): a room is
        taken from each child and, when both have one, the two are joined.
        Walls stay blocked and no walkable cell is closed. */
    method ConnectChildren(level: GameMap, rng: Random, ghost U: set<BSPLeaf>) returns (ghost r1: Option<Rect>, ghost r2: Option<Rect>)
      requires this in U && TreeOK(U) && InMap(U, level.width, level.height)
      requires child1 != null && child2 != null && child1 in U && child2 in U
      requires level.Valid() && level.WallsBlocked() && RoomsListed(U, level.rooms)
      modifies level.tiles, rng
      ensures level.WallsBlocked()
      ensures forall i, j :: 0 <= i < level.width && 0 <= j < level.height && !old(level.tiles[i, j]).blocked ==>
        !level.tiles[i, j].blocked
      ensures old(level.OpenCells()) <= level.OpenCells()
      // r1 and r2 are the rooms taken from the two children: a room of
      // each subtree, inside that child, exactly when it has one.
      ensures r1.None? <==> old(!child1.HasRoom(U))
      ensures r2.None? <==> old(!child2.HasRoom(U))
      ensures r1.Some? ==>
        old(RoomBelow(r1.value, child1, U)) && RectWithin(r1.value, child1.Bounds()) && r1.value.w >= ROOM_MIN_SIZE && r1.value.h >= ROOM_MIN_SIZE
      ensures r2.Some? ==>
        old(RoomBelow(r2.value, child2, U)) && RectWithin(r2.value, child2.Bounds()) && r2.value.w >= ROOM_MIN_SIZE && r2.value.h >= ROOM_MIN_SIZE
      // When both exist, the corridor joins them by walkable cells.
      ensures r1.Some? && r2.Some? ==> Connected(level.OpenCells(), Centre(r1.value), Centre(r2.value))
      // Every cell the corridor opened is joined to the first room's centre.
      ensures r1.Some? && r2.Some? ==> ReachedFrom(level.OpenCells(), old(level.OpenCells()), Centre(r1.value))
    {
      ghost var open0 := level.OpenCells();
      var room1 := child1.GetRoom(rng, U);
      var room2 := child2.GetRoom(rng, U);
      r1, r2 := room1, room2;
      if room1.Some? && room2.Some? {
        ghost var rowFirst := ConnectRooms(level, room1.value, room2.value, rng);
        level.CorridorConnects(Centre(room1.value), Centre(room2.value));
        level.CorridorReached(Centre(room1.value), Centre(room2.value), rowFirst, open0);
      }
    }

    /** The corridor step seen from the rooms: each child's subtree added a
        joined run of rooms inside that child (rs0 the rooms before, rs1
        the rooms after the first child), and the corridor between a room
        of each makes the two runs one joined run inside this node. */
    method JoinChildren(level: GameMap, rng: Random, ghost U: set<BSPLeaf>,
                        ghost rs0: seq<Rect>, ghost rs1: seq<Rect>, ghost open0: set<Cell>, ghost open1: set<Cell>)
      requires this in U && TreeOK(U) && InMap(U, level.width, level.height) && SiblingsApart(U)
      requires child1 != null && child2 != null && child1.HasRoom(U) && child2.HasRoom(U)
      requires level.Valid() && level.WallsBlocked() && RoomsListed(U, level.rooms)
      requires rs0 <= rs1 <= level.rooms && NoRoomWithin(rs0, Bounds()) && open1 <= level.OpenCells()
      requires Joined(open1, rs1, |rs0|, |rs1|) && Joined(level.OpenCells(), level.rooms, |rs1|, |level.rooms|)
      requires RoomsInside(rs1, |rs0|, child1.Bounds()) && RoomsInside(level.rooms, |rs1|, child2.Bounds())
      requires InteriorsOpen(open1, rs1, |rs0|, level.width, level.height) && level.RoomsOpen(|rs1|)
      // The cells opened by the first subtree (open0 to open1) hang off its
      // first room, those opened by the second off the second's first room.
      requires ReachedFrom(open1, open0, Centre(rs1[|rs0|]))
      requires ReachedFrom(level.OpenCells(), open1, Centre(level.rooms[|rs1|]))
      modifies level.tiles, rng
      ensures level.WallsBlocked()
      ensures forall i, j :: 0 <= i < level.width && 0 <= j < level.height && !old(level.tiles[i, j]).blocked ==>
        !level.tiles[i, j].blocked
      ensures old(level.OpenCells()) <= level.OpenCells()
      ensures RoomsInside(level.rooms, |rs0|, Bounds()) && level.RoomsOpen(|rs0|)
      ensures Joined(level.OpenCells(), level.rooms, |rs0|, |level.rooms|)
      ensures ReachedFrom(level.OpenCells(), open0, Centre(level.rooms[|rs0|]))
    {
      assert NodeOK(this, U);
      ghost var open2 := level.OpenCells();
      ListedRooms(U, level.rooms, child1);
      ListedRooms(U, level.rooms, child2);
      ghost var r1, r2 := ConnectChildren(level, rng, U);
      ChildRunsInside(rs0, rs1, level.rooms, open1, open2, level.OpenCells(),
                      level.width, level.height, Bounds(), child1.Bounds(), child2.Bounds());
      JoinChildRuns(rs0, rs1, level.rooms, open1, open2, level.OpenCells(),
                    Bounds(), child1.Bounds(), child2.Bounds(), r1.value, r2.value);
      ghost var hub := Centre(level.rooms[|rs0|]);
      assert rs1[|rs0|] == level.rooms[|rs0|];
      assert Connected(level.OpenCells(), hub, Centre(level.rooms[|rs1|]));
      ReachedChain(open0, open1, open2, level.OpenCells(), hub, Centre(level.rooms[|rs1|]), Centre(r1.value));
    }

    /** `create_rooms` (game.py:351-374). A node with children recurses into
        them and joins a room of each with a corridor; a leaf gets a room of
        random size and place inside its padding, carved into the map and
        appended to the map's room list. Every new room lies inside this
        node and has its interior walkable, and all of them are joined to
        one another by walkable cells; earlier rooms are kept, rooms already
        given to nodes stay, and no walkable cell is closed. */
    method CreateRooms(level: GameMap, rng: Random, ghost U: set<BSPLeaf>)
      requires this in U && TreeOK(U) && InMap(U, level.width, level.height)
      requires SiblingsApart(U) && RoomsListed(U, level.rooms) && NoRoomWithin(level.rooms, Bounds())
      requires level.Valid() && level.WallsBlocked()
      modifies U`room, level`rooms, level.tiles, rng
      decreases w + h, 2
      ensures TreeOK(U) && level.WallsBlocked()
      ensures SiblingsApart(U) && RoomsListed(U, level.rooms)
      ensures forall n :: n in U && old(n.room).Some? ==> n.room == old(n.room)
      ensures HasRoom(U)
      ensures old(level.rooms) < level.rooms && level.RoomsOpen(|old(level.rooms)|)
      ensures RoomsInside(level.rooms, |old(level.rooms)|, Bounds())
      ensures forall i, j :: 0 <= i < level.width && 0 <= j < level.height && !old(level.tiles[i, j]).blocked ==>
        !level.tiles[i, j].blocked
      ensures old(level.OpenCells()) <= level.OpenCells()
      // The new rooms are all joined to one another by walkable cells.
      ensures Joined(level.OpenCells(), level.rooms, |old(level.rooms)|, |level.rooms|)
      // Every cell opened is joined to the first new room's centre.
      ensures ReachedFrom(level.OpenCells(), old(level.OpenCells()), Centre(level.rooms[|old(level.rooms)|]))
    {
      if child1 != null || child2 != null {
        CreateChildRooms(level, rng, U);
      } else {
        PlaceRoom(level, rng, U);
        HasRoomUnfold(U);
      }
    }

    /** The case of `create_rooms` for a node with children (game.py:354-361):
        each child's subtree gets its rooms in turn, and a corridor joins a
        room of one to a room of the other. A node of the tree has both
        children or neither, so the source's test of each child always
        passes here. */
    method CreateChildRooms(level: GameMap, rng: Random, ghost U: set<BSPLeaf>)
      requires child1 != null || child2 != null
      requires this in U && TreeOK(U) && InMap(U, level.width, level.height)
      requires SiblingsApart(U) && RoomsListed(U, level.rooms) && NoRoomWithin(level.rooms, Bounds())
      requires level.Valid() && level.WallsBlocked()
      modifies U`room, level`rooms, level.tiles, rng
      decreases w + h, 1
      ensures TreeOK(U) && level.WallsBlocked()
      ensures SiblingsApart(U) && RoomsListed(U, level.rooms)
      ensures forall n :: n in U && old(n.room).Some? ==> n.room == old(n.room)
      ensures HasRoom(U)
      ensures old(level.rooms) < level.rooms && level.RoomsOpen(|old(level.rooms)|)
      ensures RoomsInside(level.rooms, |old(level.rooms)|, Bounds())
      ensures forall i, j :: 0 <= i < level.width && 0 <= j < level.height && !old(level.tiles[i, j]).blocked ==>
        !level.tiles[i, j].blocked
      ensures old(level.OpenCells()) <= level.OpenCells()
      ensures Joined(level.OpenCells(), level.rooms, |old(level.rooms)|, |level.rooms|)
      // Every cell opened is joined to the first new room's centre.
      ensures ReachedFrom(level.OpenCells(), old(level.OpenCells()), Centre(level.rooms[|old(level.rooms)|]))
    {
      assert NodeOK(this, U);
      ghost var rooms0, open0 := level.rooms, level.OpenCells();
      NoRoomWithinShrink(level.rooms, child1.Bounds(), Bounds());
      child1.CreateRooms(level, rng, U);
      ghost var m1 :| m1 in U && m1.room.Some? && Below(m1, child1, U);
      CreateSecondRooms(level, rng, U, rooms0, m1, open0);
      HasRoomUnfold(U);
    }

    /** The rest of `create_rooms` for a node with children (game.py:356-361),
        once the first child's subtree has its rooms (a joined run after the
        rooms rs0, inside that child; m1 a node below it holding a room):
        the second child's subtree gets its rooms and a corridor joins a
        room of each, so that the rooms after rs0 form one joined run. */
    method CreateSecondRooms(level: GameMap, rng: Random, ghost U: set<BSPLeaf>, ghost rs0: seq<Rect>, ghost m1: BSPLeaf,
                             ghost open0: set<Cell>)
      requires this in U && TreeOK(U) && InMap(U, level.width, level.height) && child1 != null && child2 != null
      requires SiblingsApart(U) && RoomsListed(U, level.rooms) && level.Valid() && level.WallsBlocked()
      requires m1 in U && m1.room.Some? && Below(m1, child1, U)
      requires rs0 <= level.rooms && NoRoomWithin(rs0, Bounds())
      requires RoomsInside(level.rooms, |rs0|, child1.Bounds()) && level.RoomsOpen(|rs0|)
      requires Joined(level.OpenCells(), level.rooms, |rs0|, |level.rooms|)
      requires ReachedFrom(level.OpenCells(), open0, Centre(level.rooms[|rs0|]))
      modifies U`room, level`rooms, level.tiles, rng
      decreases w + h, 0
      ensures TreeOK(U) && level.WallsBlocked()
      ensures SiblingsApart(U) && RoomsListed(U, level.rooms)
      ensures forall n :: n in U && old(n.room).Some? ==> n.room == old(n.room)
      ensures old(level.rooms) < level.rooms && RoomsInside(level.rooms, |rs0|, Bounds()) && level.RoomsOpen(|rs0|)
      ensures forall i, j :: 0 <= i < level.width && 0 <= j < level.height && !old(level.tiles[i, j]).blocked ==>
        !level.tiles[i, j].blocked
      ensures old(level.OpenCells()) <= level.OpenCells()
      ensures Joined(level.OpenCells(), level.rooms, |rs0|, |level.rooms|)
      ensures ReachedFrom(level.OpenCells(), open0, Centre(level.rooms[|rs0|]))
    {
      assert NodeOK(this, U);
      ghost var rooms1, open1 := level.rooms, level.OpenCells();
      NoRoomWithinBeside(rs0, rooms1, Bounds(), child1.Bounds(), child2.Bounds());
      child2.CreateRooms(level, rng, U);
      // The room child1's subtree got is still there.
      assert m1.room.Some? && Below(m1, child1, U);
      JoinChildren(level, rng, U, rs0, rooms1, open0, open1);
    }
  }
}
