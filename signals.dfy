/** Traffic lights: the light colours, the light assigned to each approach and
    the rule that decides whether a car at its stop line may enter
    (traffic.py:36-40, 140-203, 325-327). */
module Signals {
  import opened Geometry

  datatype Light = Green | GreenArrow | Yellow | Red

  /** The two signal programs (SimpleIntersection and ProtectedLeftTurn). */
  datatype Pattern = Simple | ProtectedLeft

  /** One light per approach direction: the source's dictionary keyed by
      direction, whose four keys are always present. */
  datatype Lights = Lights(north: Light, south: Light, east: Light, west: Light)

  /** The light facing approach `d` (`lights[d]` in the source). */
  function LightAt(m: Lights, d: Direction): Light {
    match d
    case North => m.north
    case South => m.south
    case East => m.east
    case West => m.west
  }

  const AllRed: Lights := Lights(Red, Red, Red, Red)

  /** A light that lets some traffic through. */
  predicate Go(l: Light) {
    l == Green || l == GreenArrow
  }

  /** Whether a car with turn intention `t` facing light `l` must wait at its
      stop line: a straight car waits unless the light is green or a green
      arrow, a left-turning car waits unless it is a green arrow. So a car may
      enter exactly on a green arrow, or on green when it goes straight; on
      yellow and red every car waits. */
  predicate MustStop(t: Turn, l: Light): (b: bool)
    ensures !b <==> l == GreenArrow || (l == Green && t == NoTurn)
    ensures !Go(l) ==> b
  {
    (t == Left && l != GreenArrow) || (t == NoTurn && !Go(l))
  }

  /** No north/south light lets traffic through while an east/west light is
      not red, and vice versa. */
  predicate Safe(m: Lights) {
    ((Go(m.north) || Go(m.south)) ==> m.east == Red && m.west == Red) &&
    ((Go(m.east) || Go(m.west)) ==> m.north == Red && m.south == Red)
  }

  predicate Crosses(d1: Direction, d2: Direction) {
    Vertical(d1) != Vertical(d2)
  }

  /** The lights each program starts from (traffic.py:143-146, 165-168). */
  function InitialLights(p: Pattern): (m: Lights)
    ensures Safe(m)
    ensures p == Simple ==> Go(m.east) && Go(m.west)
  {
    match p
    case Simple => Lights(Red, Red, Green, Green)
    case ProtectedLeft => AllRed
  }

  /** Under safe lights, two cars on crossing approaches can never both be let
      into the intersection, whatever their turn intentions. */
  lemma CrossTrafficExcluded(m: Lights, d1: Direction, t1: Turn, d2: Direction, t2: Turn)
    requires Safe(m) && Crosses(d1, d2)
    ensures MustStop(t1, LightAt(m, d1)) || MustStop(t2, LightAt(m, d2))
  {
  }
}
