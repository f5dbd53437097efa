/** The simulation engine (`Intersection`, traffic.py:216-398) together with
    its signal program (`TrafficPattern` and its two subclasses,
    traffic.py:123-203). The program's lights are a field of the engine and the
    program is selected by `pattern`. */
module Engine {
  import opened Options
  import opened Geometry
  import opened Signals
  import opened Vehicle
  import opened Motion
  import opened Spawning

  const MaxSteps: nat := 200

  /** The part of the engine's state a tick changes, by value: the step
      counter, the passed and created counters, the tracked cars and the
      pool. */
  datatype Frame = Frame(steps: nat, passed: nat, created: nat, cars: seq<CarState>, pool: seq<Direction>)

  /** `is_finished` on a frame. */
  predicate Finished(f: Frame, goal: nat) {
    f.passed >= goal || f.steps >= MaxSteps
  }

  /** One counted step of `_run_phase` under `lights`, with the coin flip
      `coin` and the left-turn draw `drawLeft`: the step counter grows by one,
      stages 1 to 4 advance the cars and count the ones that left, and stage 5
      spawns as `SpawnStageStep` says. */
  predicate TickWith(a: Frame, b: Frame, lights: Lights, concurrent: nat, goal: nat, pattern: Pattern,
                     coin: bool, drawLeft: bool)
  {
    var moved := Advanced(a.cars, lights);
    b.steps == a.steps + 1 &&
    b.passed == a.passed + |a.cars| - |moved| &&
    SpawnStageStep(moved, a.pool, a.created, goal, concurrent, pattern, coin, drawLeft, b.cars, b.pool, b.created)
  }

  /** One counted step for some outcome of the two random draws. */
  predicate Tick(a: Frame, b: Frame, lights: Lights, concurrent: nat, goal: nat, pattern: Pattern) {
    exists coin: bool, drawLeft: bool :: TickWith(a, b, lights, concurrent, goal, pattern, coin, drawLeft)
  }

  /** Consecutive frames are related by a tick, each from an unfinished
      frame. */
  predicate Ticks(trace: seq<Frame>, lights: Lights, concurrent: nat, goal: nat, pattern: Pattern) {
    forall k :: 0 <= k < |trace| - 1 ==>
      !Finished(trace[k], goal) && Tick(trace[k], trace[k + 1], lights, concurrent, goal, pattern)
  }

  /** A run of `_run_phase(duration)` under `lights`, as the frames before
      each tick followed by the frame after the last one: every tick starts
      from an unfinished frame, and the run ends after `duration` ticks or at
      the first finished frame. */
  predicate PhaseRun(trace: seq<Frame>, duration: nat, lights: Lights, concurrent: nat, goal: nat, pattern: Pattern) {
    1 <= |trace| <= duration + 1 &&
    Ticks(trace, lights, concurrent, goal, pattern) &&
    (|trace| == duration + 1 || Finished(trace[|trace| - 1], goal))
  }

  /** A tick keeps the counters consistent: every created car is tracked or
      passed, and the pool holds the cars still to be created. */
  lemma TickConserves(a: Frame, b: Frame, lights: Lights, concurrent: nat, goal: nat, pattern: Pattern)
    requires Tick(a, b, lights, concurrent, goal, pattern)
    requires a.passed + |a.cars| == a.created && |a.pool| + a.created == goal
    ensures b.passed + |b.cars| == b.created && |b.pool| + b.created == goal
    ensures b.steps == a.steps + 1 && a.passed <= b.passed
  {
    var coin, drawLeft :| TickWith(a, b, lights, concurrent, goal, pattern, coin, drawLeft);
    var moved := Advanced(a.cars, lights);
    SpawnStageCounts(moved, a.pool, a.created, goal, concurrent, pattern, coin, drawLeft, b.cars, b.pool, b.created);
  }

  /** A run of ticks counts one step per tick, never lowers the passed
      counter and keeps the counters consistent. */
  lemma {:induction false} TicksConserve(trace: seq<Frame>, lights: Lights, concurrent: nat, goal: nat, pattern: Pattern)
    requires |trace| >= 1 && Ticks(trace, lights, concurrent, goal, pattern)
    requires trace[0].passed + |trace[0].cars| == trace[0].created && |trace[0].pool| + trace[0].created == goal
    ensures trace[|trace| - 1].steps == trace[0].steps + |trace| - 1
    ensures trace[0].passed <= trace[|trace| - 1].passed
    ensures trace[|trace| - 1].passed + |trace[|trace| - 1].cars| == trace[|trace| - 1].created
    ensures |trace[|trace| - 1].pool| + trace[|trace| - 1].created == goal
    decreases |trace|
  {
    if |trace| > 1 {
      var init := trace[..|trace| - 1];
      assert Ticks(init, lights, concurrent, goal, pattern) by {
        assert forall k :: 0 <= k < |init| ==> init[k] == trace[k];
      }
      TicksConserve(init, lights, concurrent, goal, pattern);
      TickConserves(trace[|trace| - 2], trace[|trace| - 1], lights, concurrent, goal, pattern);
    }
  }

  class Intersection {
    var cars: seq<Car>
    var passedCars: nat
    const concurrentCars: nat
    const goalCars: nat
    var carsCreated: nat
    const pattern: Pattern
    var lights: Lights
    var steps: nat
    var spawnPool: seq<Direction>

    /** The values of the tracked cars, in list order. */
    function Snapshot(): seq<CarState>
      reads this, cars
    {
      States(cars)
    }

    /** The engine's invariant: the lights are safe; every created car is
        either tracked or has passed; the pool holds exactly the cars still to
        be created; the step cap holds; and the tracked cars are apart, on the
        grid and numbered below `carsCreated`. */
    ghost predicate Valid()
      reads this, cars
    {
      Safe(lights) &&
      |spawnPool| + carsCreated == goalCars &&
      passedCars + |cars| == carsCreated &&
      steps <= MaxSteps &&
      CarsValid(Snapshot(), carsCreated, pattern)
    }

    /** `Intersection.__init__` in test mode: no car yet, the shuffled pool and
        the program's initial lights. `numEvenCars` is the rounded product of
        the goal and the distribution factor; `randomDirection` is the
        direction drawn for the remaining entries. */
    constructor (concurrent: nat, goal: nat, program: Pattern, numEvenCars: nat, randomDirection: Direction)
      requires numEvenCars <= goal
      ensures Valid()
      ensures cars == [] && passedCars == 0 && carsCreated == 0 && steps == 0
      ensures concurrentCars == concurrent && goalCars == goal && pattern == program
      ensures lights == InitialLights(program)
      ensures multiset(spawnPool) == multiset(UnshuffledPool(goal, numEvenCars, randomDirection))
    {
      var pool := GenerateSpawnPool(goal, numEvenCars, randomDirection);
      cars := [];
      passedCars := 0;
      concurrentCars := concurrent;
      goalCars := goal;
      carsCreated := 0;
      pattern := program;
      lights := InitialLights(program);
      steps := 0;
      spawnPool := pool;
    }

    /** The engine's changing state, by value. */
    function Now(): Frame
      reads this, cars
    {
      Frame(steps, passedCars, carsCreated, Snapshot(), spawnPool)
    }

    /** `is_finished`: the step cap is reached, or the goal is. Under the
        invariant the goal is reached exactly when every car has been created
        and has passed. */
    predicate IsFinished(): (b: bool)
      reads this, cars
      ensures b == Finished(Now(), goalCars)
      ensures Valid() ==> (b <==> steps >= MaxSteps || (cars == [] && spawnPool == [] && passedCars == goalCars))
    {
      passedCars >= goalCars || steps >= MaxSteps
    }

    /** `get_car_at`: the first tracked car on cell (x, y), if any. */
    function GetCarAt(x: int, y: int): (r: Option<Car>)
      reads this, cars
      ensures r.None? <==> !Occupied(Snapshot(), (x, y))
      ensures r.Some? ==> exists k :: 0 <= k < |cars| && cars[k] == r.value && Snapshot()[k].Pos() == (x, y) &&
                                      forall j :: 0 <= j < k ==> Snapshot()[j].Pos() != (x, y)
    {
      assert forall k :: 0 <= k < |cars| ==> Snapshot()[k] == cars[k].State();
      FirstAt(cars, x, y)
    }

    /** `is_car_ahead`: some tracked car stands on the next cell or on the
        buffer cell. */
    method IsCarAhead(next: Pos, buffer: Pos) returns (b: bool)
      ensures b <==> Occupied(Snapshot(), next) || Occupied(Snapshot(), buffer)
    {
      b := GetCarAt(next.0, next.1).Some? || GetCarAt(buffer.0, buffer.1).Some?;
    }

    /** The body of stage 1 for car `i`: its light, whether it is on its stop
        line, its next and buffer cells and whether a car stands on either. */
    method IntentOf(i: nat) returns (p: Pos)
      requires i < |cars|
      ensures p == Intent(Snapshot(), lights, i)
    {
      var car := cars[i].State();
      assert car == Snapshot()[i];
      var light := LightAt(lights, car.direction);
      var shouldStopForLight := (car.turn == Left && light != GreenArrow) ||
                                (car.turn == NoTurn && light != Green && light != GreenArrow);
      var atIntersection := (car.direction == North && car.y == IntersectionEndY + 1) ||
                            (car.direction == South && car.y == IntersectionStartY - 1) ||
                            (car.direction == East && car.x == IntersectionStartX - 1) ||
                            (car.direction == West && car.x == IntersectionEndX + 1);
      assert shouldStopForLight == MustStop(car.turn, light);
      assert atIntersection == AtStopLine(car.direction, car.Pos());
      var next := Ahead((car.x, car.y), car.direction, 1);
      var buffer := Ahead((car.x, car.y), car.direction, 2);
      var isCarAhead := IsCarAhead(next, buffer);
      if isCarAhead || (atIntersection && shouldStopForLight) {
        p := (car.x, car.y);
      } else {
        p := next;
      }
    }

    /** Stage 1 of `update_cars`: every car's intended cell. */
    method ComputeIntents() returns (want: seq<Pos>)
      ensures want == Intents(Snapshot(), lights)
    {
      want := [];
      for i := 0 to |cars|
        invariant want == Intents(Snapshot(), lights)[..i]
      {
        var p := IntentOf(i);
        want := want + [p];
      }
    }

    /** Stage 2 of `update_cars`: claim intended cells first-come in list
        order; a car whose cell is already claimed keeps its own. */
    method ResolveMoves(want: seq<Pos>) returns (final: seq<Pos>)
      requires |want| == |cars|
      ensures final == Resolve(Positions(Snapshot()), want)
    {
      ghost var cur := Positions(Snapshot());
      final := [];
      var occupiedNextSpots: set<Pos> := {};
      for i := 0 to |cars|
        invariant |final| == i
        invariant ResolveFrom(cur, want, i, final, occupiedNextSpots) == Resolve(cur, want)
      {
        var car := cars[i];
        var intendedPos := want[i];
        assert cur[i] == (car.x, car.y);
        if intendedPos == (car.x, car.y) {
          final := final + [(car.x, car.y)];
        } else if intendedPos in occupiedNextSpots {
          final := final + [(car.x, car.y)];
        } else {
          final := final + [intendedPos];
          occupiedNextSpots := occupiedNextSpots + {intendedPos};
        }
      }
    }

    /** Stage 3 of `update_cars`: move every car to its resolved cell, then
        take the left turns due there. */
    method ApplyMoves(final: seq<Pos>)
      requires |final| == |cars|
      requires forall i, j :: 0 <= i < j < |cars| ==> cars[i] != cars[j]
      modifies cars
      ensures Snapshot() == Committed(old(Snapshot()), final)
    {
      for i := 0 to |cars|
        invariant forall k :: 0 <= k < i ==> cars[k].State() == Commit(old(cars[k].State()), final[k])
        invariant forall k :: i <= k < |cars| ==> cars[k].State() == old(cars[k].State())
      {
        var car := cars[i];
        car.x, car.y := final[i].0, final[i].1;
        car.TakeTurn();
      }
    }

    /** Stage 4 of `update_cars`: drop the cars that left the grid and count
        them as passed. */
    method RemoveExited()
      modifies this
      ensures Snapshot() == Survivors(old(Snapshot()))
      ensures passedCars == old(passedCars) + |old(cars)| - |cars|
      ensures forall c :: c in cars ==> c in old(cars)
      ensures lights == old(lights) && steps == old(steps) && carsCreated == old(carsCreated)
      ensures spawnPool == old(spawnPool)
    {
      var carsOnGrid := OnGrid(cars);
      OnGridStates(cars);
      passedCars := passedCars + |cars| - |carsOnGrid|;
      cars := carsOnGrid;
    }

    /** The spawning part of `spawn_car`: the pool's last direction `d` is
        popped and a new car numbered `carsCreated`, with direction `d` and
        turn `t`, is created on its spawn cell, appended to the list and
        counted as created. */
    method Admit(t: Turn)
      requires spawnPool != []
      modifies this
      ensures var d := old(spawnPool)[|old(spawnPool)| - 1];
              Snapshot() == old(Snapshot()) + [CarState(old(carsCreated), d, t, SpawnCell(d).0, SpawnCell(d).1)]
      ensures |cars| == |old(cars)| + 1 && cars[..|old(cars)|] == old(cars) && fresh(cars[|old(cars)|])
      ensures fresh((set c | c in cars) - (set c | c in old(cars)))
      ensures spawnPool == old(spawnPool)[..|old(spawnPool)| - 1] && carsCreated == old(carsCreated) + 1
      ensures lights == old(lights) && steps == old(steps) && passedCars == old(passedCars)
    {
      var d := spawnPool[|spawnPool| - 1];
      var newCar := new Car(carsCreated, d, t);
      assert States(cars) == old(Snapshot());
      var extended := cars + [newCar];
      StatesAppend(cars, newCar);
      assert extended[..|cars|] == cars;
      cars, carsCreated, spawnPool := extended, carsCreated + 1, spawnPool[..|spawnPool| - 1];
    }

    /** `random.shuffle` of the pool: any permutation of it. */
    method Reshuffle()
      modifies this
      ensures multiset(spawnPool) == multiset(old(spawnPool)) && |spawnPool| == |old(spawnPool)|
      ensures cars == old(cars) && passedCars == old(passedCars) && carsCreated == old(carsCreated)
      ensures lights == old(lights) && steps == old(steps)
    {
      var shuffled: seq<Direction> :| multiset(shuffled) == multiset(spawnPool);
      assert |shuffled| == |multiset(shuffled)| == |spawnPool|;
      spawnPool := shuffled;
    }

    /** `spawn_car`. Nothing happens when the pool is empty or the goal is
        reached. When the spawn cell of the pool's last direction is taken,
        the pool is reshuffled and no car is added. Otherwise that direction is
        popped and a car numbered `carsCreated` is appended. `drawLeft` is the
        outcome of the left-turn draw. */
    method SpawnCar(drawLeft: bool)
      requires Valid()
      modifies this
      ensures Valid()
      ensures lights == old(lights) && steps == old(steps) && passedCars == old(passedCars)
      ensures fresh((set c | c in cars) - (set c | c in old(cars)))
      ensures SpawnStep(old(Snapshot()), old(spawnPool), old(carsCreated), goalCars, pattern, drawLeft,
                        Snapshot(), spawnPool, carsCreated)
      ensures cars == old(cars) || (|cars| == |old(cars)| + 1 && cars[..|old(cars)|] == old(cars) && fresh(cars[|old(cars)|]))
    {
      if spawnPool == [] || carsCreated >= goalCars {
        return;
      }
      var direction := spawnPool[|spawnPool| - 1];
      var spawnAt := SpawnCell(direction);
      if Occupied(Snapshot(), spawnAt) {
        Reshuffle();
        return;
      }
      var turn := NoTurn;
      if pattern == ProtectedLeft {
        if drawLeft {
          turn := Left;
        }
      }
      SpawnKeepsValid(Snapshot(), carsCreated, pattern, direction, turn);
      Admit(turn);
      assert CarsValid(Snapshot(), carsCreated, pattern);
    }

    /** Stages 1 to 4 of `update_cars`: every car advances or is held, and
        the cars that left the grid are counted as passed. */
    method Advance()
      requires Valid()
      modifies this, cars
      ensures Valid()
      ensures Snapshot() == Advanced(old(Snapshot()), old(lights))
      ensures passedCars == old(passedCars) + |old(cars)| - |cars|
      ensures forall c :: c in cars ==> c in old(cars)
      ensures lights == old(lights) && steps == old(steps) && carsCreated == old(carsCreated)
      ensures spawnPool == old(spawnPool)
    {
      ghost var s0 := Snapshot();
      ghost var m := Moves(s0, lights);
      AdvanceKeepsValid(s0, lights, carsCreated, pattern);
      var want := ComputeIntents();
      assert Snapshot() == s0;
      var final := ResolveMoves(want);
      assert Snapshot() == s0;
      assert want == Intents(s0, lights);
      assert final == Resolve(Positions(s0), want);
      forall i, j | 0 <= i < j < |cars|
        ensures cars[i] != cars[j]
      {
        assert s0[i].Pos() != s0[j].Pos();
      }
      ApplyMoves(final);
      assert Snapshot() == m;
      RemoveExited();
    }

    /** Stage 5 of `update_cars`: when fewer than `concurrentCars` cars are
        tracked and the coin says so, `spawn_car` runs; otherwise nothing
        changes. */
    method SpawnStage(coin: bool, drawLeft: bool)
      requires Valid()
      modifies this
      ensures Valid()
      ensures lights == old(lights) && steps == old(steps) && passedCars == old(passedCars)
      ensures fresh((set c | c in cars) - (set c | c in old(cars)))
      ensures SpawnStageStep(old(Snapshot()), old(spawnPool), old(carsCreated), goalCars, concurrentCars, pattern,
                             coin, drawLeft, Snapshot(), spawnPool, carsCreated)
      ensures cars == old(cars) || (|cars| == |old(cars)| + 1 && cars[..|old(cars)|] == old(cars) && fresh(cars[|old(cars)|]))
    {
      if |cars| < concurrentCars && coin {
        SpawnCar(drawLeft);
      }
    }

    /** `update_cars`: one tick. `coin` is the outcome of the 50% spawn coin
        flip and `drawLeft` that of the left-turn draw. After the cars advance,
        a car is spawned only when fewer than `concurrentCars` are tracked and
        the coin says so. */
    method UpdateCars(coin: bool, drawLeft: bool)
      requires Valid()
      modifies this, cars
      ensures Valid()
      ensures lights == old(lights) && steps == old(steps)
      ensures fresh((set c | c in cars) - (set c | c in old(cars)))
      ensures |old(cars)| <= concurrentCars ==> |cars| <= concurrentCars
      ensures var moved := Advanced(old(Snapshot()), old(lights));
              passedCars == old(passedCars) + |old(cars)| - |moved| &&
              SpawnStageStep(moved, old(spawnPool), old(carsCreated), goalCars, concurrentCars, pattern,
                             coin, drawLeft, Snapshot(), spawnPool, carsCreated)
    {
      Advance();
      ghost var moved := Snapshot();
      ghost var pool := spawnPool;
      ghost var created := carsCreated;
      SpawnStage(coin, drawLeft);
      SpawnStageCounts(moved, pool, created, goalCars, concurrentCars, pattern, coin, drawLeft,
                       Snapshot(), spawnPool, carsCreated);
    }

    /** The body of `_run_phase`'s loop once the run is not finished: the
        step counter grows by one and `update_cars` runs, with arbitrary
        outcomes of the coin flip and the left-turn draw. */
    method CountedTick()
      requires Valid() && !IsFinished()
      modifies this, cars
      ensures Valid()
      ensures lights == old(lights)
      ensures Tick(old(Now()), Now(), lights, concurrentCars, goalCars, pattern)
      ensures fresh((set c | c in cars) - (set c | c in old(cars)))
      ensures |old(cars)| <= concurrentCars ==> |cars| <= concurrentCars
    {
      ghost var before := Now();
      steps := steps + 1;
      var coin: bool := *;
      var drawLeft: bool := *;
      UpdateCars(coin, drawLeft);
      assert TickWith(before, Now(), lights, concurrentCars, goalCars, pattern, coin, drawLeft);
    }

    /** `TrafficPattern._run_phase` in test mode: up to `duration` ticks,
        stopping as soon as the run is finished. The coin flip and the
        left-turn draw of each tick are arbitrary. */
    method RunPhase(duration: nat) returns (ghost trace: seq<Frame>)
      requires Valid()
      modifies this, cars
      ensures Valid()
      ensures lights == old(lights)
      ensures PhaseRun(trace, duration, lights, concurrentCars, goalCars, pattern)
      ensures trace[0] == old(Now()) && trace[|trace| - 1] == Now()
      ensures old(steps) <= steps <= old(steps) + duration
      ensures steps < old(steps) + duration ==> IsFinished()
      ensures old(IsFinished()) ==> unchanged(this) && unchanged(cars)
      ensures fresh((set c | c in cars) - (set c | c in old(cars)))
      ensures |old(cars)| <= concurrentCars ==> |cars| <= concurrentCars
    {
      trace := [Now()];
      for k := 0 to duration
        invariant Valid()
        invariant lights == old(lights)
        invariant steps == old(steps) + k
        invariant |trace| == k + 1 && trace[0] == old(Now()) && trace[k] == Now()
        invariant Ticks(trace, lights, concurrentCars, goalCars, pattern)
        invariant old(IsFinished()) ==> k == 0
        invariant k == 0 ==> unchanged(this) && unchanged(cars)
        invariant fresh((set c | c in cars) - (set c | c in old(cars)))
        invariant |old(cars)| <= concurrentCars ==> |cars| <= concurrentCars
      {
        if IsFinished() {
          return;
        }
        CountedTick();
        trace := trace + [Now()];
      }
    }

    /** One phase of a program's cycle: `self.lights.update(...)` switches the
        lights to `l`, which must keep the crossing approaches apart, and
        `_run_phase(duration)` follows. */
    method Phase(l: Lights, duration: nat) returns (ghost trace: seq<Frame>)
      requires Valid() && Safe(l)
      modifies this, cars
      ensures Valid()
      ensures lights == l
      ensures PhaseRun(trace, duration, l, concurrentCars, goalCars, pattern)
      ensures trace[0] == old(Now()) && trace[|trace| - 1] == Now()
      ensures old(steps) <= steps <= old(steps) + duration
      ensures fresh((set c | c in cars) - (set c | c in old(cars)))
      ensures |old(cars)| <= concurrentCars ==> |cars| <= concurrentCars
    {
      lights := l;
      trace := RunPhase(duration);
    }

    /** The clearance interval that closes a green phase of one axis: that
        axis turns yellow for 3 ticks, then every light is red for 2. The
        crossing axis is red throughout. */
    method Clearance(northSouth: bool)
      requires Valid()
      requires northSouth ==> lights.east == Red && lights.west == Red
      requires !northSouth ==> lights.north == Red && lights.south == Red
      modifies this, cars
      ensures Valid()
      ensures lights == AllRed
      ensures old(steps) <= steps <= old(steps) + 5
      ensures fresh((set c | c in cars) - (set c | c in old(cars)))
      ensures |old(cars)| <= concurrentCars ==> |cars| <= concurrentCars
    {
      if northSouth {
        ghost var yellow := Phase(lights.(north := Yellow, south := Yellow), 3);
      } else {
        ghost var yellow := Phase(lights.(east := Yellow, west := Yellow), 3);
      }
      ghost var red := Phase(lights.(north := Red, south := Red, east := Red, west := Red), 2);
    }

    /** A green phase of one axis for `duration` ticks under the safe lights
        `green`, followed by its clearance interval. */
    method Release(green: Lights, duration: nat, northSouth: bool)
      requires Valid()
      requires northSouth ==> green.east == Red && green.west == Red
      requires !northSouth ==> green.north == Red && green.south == Red
      modifies this, cars
      ensures Valid()
      ensures lights == AllRed
      ensures old(steps) <= steps <= old(steps) + duration + 5
      ensures fresh((set c | c in cars) - (set c | c in old(cars)))
      ensures |old(cars)| <= concurrentCars ==> |cars| <= concurrentCars
    {
      ghost var run := Phase(green, duration);
      Clearance(northSouth);
    }

    /** `SimpleIntersection.cycle`: north/south green for 10 ticks and its
        clearance, then the same for east/west. */
    method SimpleCycle()
      requires Valid() && pattern == Simple
      modifies this, cars
      ensures Valid()
      ensures lights == AllRed
      ensures old(steps) <= steps <= old(steps) + 30
      ensures fresh((set c | c in cars) - (set c | c in old(cars)))
      ensures |old(cars)| <= concurrentCars ==> |cars| <= concurrentCars
    {
      Release(lights.(north := Green, south := Green, east := Red, west := Red), 10, true);
      Release(lights.(east := Green, west := Green, north := Red, south := Red), 10, false);
    }

    /** `ProtectedLeftTurn.cycle`: the north/south half, then the
        east/west half. */
    method ProtectedLeftCycle()
      requires Valid() && pattern == ProtectedLeft
      modifies this, cars
      ensures Valid()
      ensures lights == AllRed
      ensures old(steps) <= steps <= old(steps) + 36
      ensures fresh((set c | c in cars) - (set c | c in old(cars)))
      ensures |old(cars)| <= concurrentCars ==> |cars| <= concurrentCars
    {
      ProtectedNorthSouth();
      ProtectedEastWest();
    }

    /** North/south half of `ProtectedLeftTurn.cycle`: green arrows for 5
        ticks, green for 8, then the clearance interval. */
    method ProtectedNorthSouth()
      requires Valid()
      modifies this, cars
      ensures Valid()
      ensures lights == AllRed
      ensures old(steps) <= steps <= old(steps) + 18
      ensures fresh((set c | c in cars) - (set c | c in old(cars)))
      ensures |old(cars)| <= concurrentCars ==> |cars| <= concurrentCars
    {
      ghost var arrows := Phase(lights.(north := GreenArrow, south := GreenArrow, east := Red, west := Red), 5);
      Release(lights.(north := Green, south := Green), 8, true);
    }

    /** East/west half of `ProtectedLeftTurn.cycle`: green arrows for 5
        ticks, green for 8, then the clearance interval. */
    method ProtectedEastWest()
      requires Valid()
      modifies this, cars
      ensures Valid()
      ensures lights == AllRed
      ensures old(steps) <= steps <= old(steps) + 18
      ensures fresh((set c | c in cars) - (set c | c in old(cars)))
      ensures |old(cars)| <= concurrentCars ==> |cars| <= concurrentCars
    {
      ghost var arrows := Phase(lights.(east := GreenArrow, west := GreenArrow, north := Red, south := Red), 5);
      Release(lights.(east := Green, west := Green), 8, false);
    }

    /** `Intersection.cycle`: one full cycle of the engine's program. */
    method Cycle()
      requires Valid()
      modifies this, cars
      ensures Valid()
      ensures lights == AllRed
      ensures old(steps) <= steps <= old(steps) + 36
      ensures fresh((set c | c in cars) - (set c | c in old(cars)))
      ensures |old(cars)| <= concurrentCars ==> |cars| <= concurrentCars
    {
      if pattern == Simple {
        SimpleCycle();
      } else {
        ProtectedLeftCycle();
      }
    }
  }
}
