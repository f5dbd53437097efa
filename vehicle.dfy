/** A car: where it is created, how it advances one cell and how it takes its
    one pending left turn (traffic.py:70-121). */
module Vehicle {
  import opened Options
  import opened Geometry

  /** The value of a car's fields. The source's `color` and `stopped` fields
      are display state and are not kept. */
  datatype CarState = CarState(id: nat, direction: Direction, turn: Turn, x: int, y: int) {
    function Pos(): Pos {
      (x, y)
    }
  }

  /** The car after its left turn, if it has one pending and stands on the
      pivot of its current direction (traffic.py:92-112, repeated at 376-387).
      Turning changes the direction only, never the cell, and clears the
      intention; off the pivot nothing changes. */
  function Turned(s: CarState): (r: CarState)
    ensures r.id == s.id && r.Pos() == s.Pos()
    ensures s.turn == Left && AtPivot(s.direction, s.Pos()) ==> r.turn == NoTurn && r.direction == LeftOf(s.direction)
    ensures !(s.turn == Left && AtPivot(s.direction, s.Pos())) ==> r == s
    ensures r.turn == Left ==> !AtPivot(r.direction, r.Pos())
  {
    if s.turn == Left && AtPivot(s.direction, s.Pos()) then
      s.(direction := LeftOf(s.direction), turn := NoTurn)
    else
      s
  }

  /** `Car.move`: take the pending turn first, then step one cell in the
      (possibly new) direction. */
  function Moved(s: CarState): (r: CarState)
    ensures r.id == s.id
    ensures r.Pos() == Ahead(s.Pos(), r.direction, 1)
    ensures Distance(r.Pos(), s.Pos()) == 1
    ensures s.turn == NoTurn ==> r.direction == s.direction && r.turn == NoTurn
    ensures s.turn == Left && AtPivot(s.direction, s.Pos()) ==> r.direction == LeftOf(s.direction) && r.turn == NoTurn
    ensures !(s.turn == Left && AtPivot(s.direction, s.Pos())) ==> r.direction == s.direction && r.turn == s.turn
  {
    var t := Turned(s);
    var p := Ahead(t.Pos(), t.direction, 1);
    t.(x := p.0, y := p.1)
  }

  /** `k` calls of `Car.move` in a row. */
  function MovedN(s: CarState, k: nat): CarState
    decreases k
  {
    if k == 0 then s else MovedN(Moved(s), k - 1)
  }

  /** A car without a pending turn keeps its direction for ever and advances
      exactly one cell along it per move. */
  lemma {:induction false} StraightForever(s: CarState, k: nat)
    requires s.turn == NoTurn
    ensures MovedN(s, k).id == s.id
    ensures MovedN(s, k).direction == s.direction && MovedN(s, k).turn == NoTurn
    ensures MovedN(s, k).Pos() == Ahead(s.Pos(), s.direction, k)
    decreases k
  {
    if k > 0 {
      StraightForever(Moved(s), k - 1);
    }
  }

  /** A left turn fires exactly once: at the pivot the car swings to the left,
      clears its intention and from then on travels straight in the new
      direction. */
  lemma {:induction false} TurnFiresOnce(s: CarState, k: nat)
    requires s.turn == Left && AtPivot(s.direction, s.Pos())
    ensures Moved(s).direction == LeftOf(s.direction) && Moved(s).turn == NoTurn
    ensures MovedN(s, k + 1).direction == LeftOf(s.direction)
    ensures MovedN(s, k + 1).turn == NoTurn
    ensures MovedN(s, k + 1).Pos() == Ahead(s.Pos(), LeftOf(s.direction), k + 1)
  {
    StraightForever(Moved(s), k);
  }

  class Car {
    const id: nat
    var direction: Direction
    var turn: Turn
    var x: int
    var y: int

    function State(): CarState
      reads this
    {
      CarState(id, direction, turn, x, y)
    }

    /** `Car.__init__`: a new car stands on the spawn cell of its direction. */
    constructor (carId: nat, dir: Direction, t: Turn)
      ensures State() == CarState(carId, dir, t, SpawnCell(dir).0, SpawnCell(dir).1)
    {
      id := carId;
      direction := dir;
      turn := t;
      x, y := SpawnCell(dir).0, SpawnCell(dir).1;
    }

    /** The turn step shared by `Car.move` and the commit stage of a tick. */
    method TakeTurn()
      modifies this
      ensures State() == Turned(old(State()))
    {
      if turn == Left {
        var turned := false;
        if direction == North && y == LaneEY {
          direction := West;
          turned := true;
        } else if direction == South && y == LaneWY {
          direction := East;
          turned := true;
        } else if direction == East && x == LaneNX {
          direction := North;
          turned := true;
        } else if direction == West && x == LaneSX {
          direction := South;
          turned := true;
        }
        if turned {
          turn := NoTurn;
        }
      }
    }

    /** `Car.move`. */
    method Move()
      modifies this
      ensures State() == Moved(old(State()))
    {
      TakeTurn();
      match direction
      case North => y := y - 1;
      case South => y := y + 1;
      case East => x := x + 1;
      case West => x := x - 1;
    }
  }

  /** The values of a list of cars, in list order. */
  function States(cs: seq<Car>): seq<CarState>
    reads cs
  {
    seq(|cs|, i requires 0 <= i < |cs| reads cs => cs[i].State())
  }

  /** The value of an extended list extends the list's value. */
  lemma StatesAppend(cs: seq<Car>, c: Car)
    ensures States(cs + [c]) == States(cs) + [c.State()]
  {
  }

  /** The first car of `cs` standing on cell (x, y), if any (`get_car_at`). */
  function FirstAt(cs: seq<Car>, x: int, y: int): (r: Option<Car>)
    reads cs
    ensures r.None? <==> forall k :: 0 <= k < |cs| ==> cs[k].State().Pos() != (x, y)
    ensures r.Some? ==> exists k :: 0 <= k < |cs| && cs[k] == r.value && cs[k].State().Pos() == (x, y) &&
                                    forall j :: 0 <= j < k ==> cs[j].State().Pos() != (x, y)
  {
    if cs == [] then None
    else if cs[0].x == x && cs[0].y == y then Some(cs[0])
    else
      var r := FirstAt(cs[1..], x, y);
      assert forall k :: 1 <= k < |cs| ==> cs[k] == cs[1..][k - 1];
      r
  }
}
