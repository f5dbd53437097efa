/** Grid layout of the simulated four-way intersection: dimensions, lanes,
    stop lines and left-turn pivots (traffic.py:54-67). Row 0 is the top of the
    screen, so a northbound car decreases y. */
module Geometry {

  const GridWidth: int := 21
  const GridHeight: int := 21
  const IntersectionSize: int := 1

  /** Column of the northbound lane, column of the southbound lane,
      row of the westbound lane and row of the eastbound lane. */
  const LaneNX: int := GridWidth / 2 + 1
  const LaneSX: int := GridWidth / 2 - 1
  const LaneEY: int := GridHeight / 2 - 1
  const LaneWY: int := GridHeight / 2 + 1

  /** The intersection box spans these columns and rows (inclusive). */
  const IntersectionStartX: int := GridWidth / 2 - IntersectionSize
  const IntersectionEndX: int := GridWidth / 2 + IntersectionSize
  const IntersectionStartY: int := GridHeight / 2 - IntersectionSize
  const IntersectionEndY: int := GridHeight / 2 + IntersectionSize

  /** A grid cell as (x, y). */
  type Pos = (int, int)

  datatype Direction = North | South | East | West

  /** A car's pending turn intention: none, or a left turn. */
  datatype Turn = NoTurn | Left

  predicate InGrid(p: Pos) {
    0 <= p.0 < GridWidth && 0 <= p.1 < GridHeight
  }

  /** The cell lies inside the intersection box. */
  predicate InBox(p: Pos) {
    IntersectionStartX <= p.0 <= IntersectionEndX && IntersectionStartY <= p.1 <= IntersectionEndY
  }

  /** North and south travel along a column, east and west along a row. */
  predicate Vertical(d: Direction) {
    d == North || d == South
  }

  function Abs(n: int): nat {
    if n < 0 then -n else n
  }

  /** Number of unit steps between two cells along the grid lines. */
  function Distance(p: Pos, q: Pos): nat {
    Abs(p.0 - q.0) + Abs(p.1 - q.1)
  }

  /** The cell `n` cells ahead of `p` for a car travelling in direction `d`
      (a negative `n` looks behind). */
  function Ahead(p: Pos, d: Direction, n: int): (q: Pos)
    ensures Vertical(d) ==> q.0 == p.0
    ensures !Vertical(d) ==> q.1 == p.1
    ensures Distance(p, q) == Abs(n)
  {
    match d
    case North => (p.0, p.1 - n)
    case South => (p.0, p.1 + n)
    case East => (p.0 + n, p.1)
    case West => (p.0 - n, p.1)
  }

  /** The edge cell where a car travelling in direction `d` enters the grid.
      It lies on the grid, the cell behind it does not, and a car that goes
      straight and is never held leaves the grid on its GridWidth-th step. */
  function SpawnCell(d: Direction): (p: Pos)
    ensures InGrid(p) && !InGrid(Ahead(p, d, -1))
    ensures InGrid(Ahead(p, d, GridWidth - 1)) && !InGrid(Ahead(p, d, GridWidth))
  {
    match d
    case North => (LaneNX, GridHeight - 1)
    case South => (LaneSX, 0)
    case East => (0, LaneWY)
    case West => (GridWidth - 1, LaneEY)
  }

  /** The cell lies on the lane of direction `d`: the column or row of its
      spawn cell. */
  predicate OnLane(d: Direction, p: Pos) {
    if Vertical(d) then p.0 == SpawnCell(d).0 else p.1 == SpawnCell(d).1
  }

  /** The direction a car travels in after turning left: it always changes
      axis. */
  function LeftOf(d: Direction): (r: Direction)
    ensures Vertical(r) != Vertical(d)
    ensures r != d
  {
    match d
    case North => West
    case South => East
    case East => North
    case West => South
  }

  /** The cell inside the intersection box where a left-turning car travelling
      in direction `d` swings into its new direction: where its own lane meets
      the lane of the direction it turns into. */
  predicate AtPivot(d: Direction, p: Pos): (b: bool)
    ensures OnLane(d, p) ==> (b <==> OnLane(LeftOf(d), p) && InBox(p))
    ensures b <==> OnLane(LeftOf(d), p)
  {
    match d
    case North => p.1 == LaneEY
    case South => p.1 == LaneWY
    case East => p.0 == LaneNX
    case West => p.0 == LaneSX
  }

  /** The cell just before the intersection box, where the light governs: on
      its lane, a car is on its stop line exactly when it is outside the box
      and the next cell is inside. */
  predicate AtStopLine(d: Direction, p: Pos): (b: bool)
    ensures OnLane(d, p) ==> (b <==> !InBox(p) && InBox(Ahead(p, d, 1)))
  {
    match d
    case North => p.1 == IntersectionEndY + 1
    case South => p.1 == IntersectionStartY - 1
    case East => p.0 == IntersectionStartX - 1
    case West => p.0 == IntersectionEndX + 1
  }

  /** Along each lane, a car reaches the stop line after 8 steps and its pivot
      after 11, and the pivot is a cell of the lane of the direction it turns
      into, so a turning car joins that lane. */
  lemma LaneLayout(d: Direction)
    ensures AtStopLine(d, Ahead(SpawnCell(d), d, 8))
    ensures forall k :: 0 <= k < 8 ==> !AtStopLine(d, Ahead(SpawnCell(d), d, k))
    ensures AtPivot(d, Ahead(SpawnCell(d), d, 11))
    ensures Ahead(SpawnCell(d), d, 11) == Ahead(SpawnCell(LeftOf(d)), LeftOf(d), 9)
  {
  }
}
