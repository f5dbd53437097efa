# traffic.py simulation engine in Dafny

A model of the engine of `traffic.py`, a terminal simulation of a signalised
four-way intersection on a 21 x 21 grid. Cars enter at one edge cell per
direction and drive one cell per tick along their lane. A car waits behind a
car one or two cells ahead and at its stop line when its light says so. A car
with a pending left turn swings into its new direction at its pivot cell.
Cars that leave the grid are counted as passed.

Each tick (`Intersection.update_cars`) has five stages:

1. every car computes its intended cell;
2. contested cells go to the earliest car in list order;
3. positions are committed and due left turns are taken;
4. cars off the grid are dropped;
5. a new car may be spawned from a shuffled direction pool.

A signal program (simple, or protected left turn) switches the four lights
through a fixed cycle of phases. Each phase runs a bounded number of ticks and
stops early once the run is finished.

Modules, one file each:

- `geometry.dfy` (`Geometry`): constants, cells, directions, spawn cells, stop lines, pivots.
- `signals.dfy` (`Signals`): light colours, the four-light record, the stop rule, safety of a light assignment.
- `vehicle.dfy` (`Vehicle`): the `Car` class with its in-place `TakeTurn` and `Move`, and its value `CarState`.
- `motion.dfy` (`Motion`): the stages of a tick as functions on car values, with their properties.
  - `Positions`, `Intents` and `Committed` are plain definitions: the cells, the intents and the committed cars of a list, entry by entry. Their content lies in `Intent` and `Commit` and in the loops proved equal to them.
  - `SpawnStep` is `spawn_car` as a relation between car values, pool and created counter before and after. `SpawnStageStep` adds stage 5's guard (room under `concurrent_cars` and the coin).
- `spawning.dfy` (`Spawning`): building the spawn pool.
  - `EvenEntries` (the round-robin entries) and `Repeated` (copies of the drawn direction) are plain definitions. What they contain per direction is stated by `EvenShare` and `RepeatedCount`.
- `engine.dfy` (`Engine`): the `Intersection` class.
  - Its fields are the car list (`seq<Car>`), the counters, the lights and the pool.
  - Its methods are the stages of a tick, `spawn_car`, `_run_phase` and the two cycles.
  - `Frame` is the part of the state a tick changes, by value, and `Now()` is the current frame.
  - `TickWith` relates the frames before and after one counted step of `_run_phase`. `Tick` does the same for some outcome of the random draws. `PhaseRun` is a whole phase as its sequence of frames.
  - Which method is proved equal to which function or relation:
    - Stages 1 to 4 (`ComputeIntents`, `ResolveMoves`, `ApplyMoves`, `RemoveExited`, and `Advance` for all four): the `Motion` functions of the old car values.
    - `SpawnCar`: `SpawnStep`.
    - `SpawnStage`: `SpawnStageStep`.
    - `UpdateCars`: `Advanced`, followed by `SpawnStageStep`.
    - `CountedTick`: `Tick`.
    - `RunPhase`: returns a ghost trace of the frames, proved to satisfy `PhaseRun`.
    - `Phase`: sets the lights, then returns `RunPhase`'s trace, proved to satisfy `PhaseRun` under the new lights.
    - `Clearance`, `Release`, `SimpleCycle`, `ProtectedNorthSouth`, `ProtectedEastWest`, `ProtectedLeftCycle` and `Cycle` are stated by their final lights, their step bounds, the invariant and the cap.
  - Every method that requires `Valid()` ensures it again. Those are `SpawnCar`, `SpawnStage`, `Advance`, `UpdateCars`, `CountedTick`, `RunPhase`, `Phase`, `Clearance`, `Release` and the cycle methods. The constructor establishes it. Stage methods and spawn helpers (`ComputeIntents`, `ResolveMoves`, `ApplyMoves`, `RemoveExited`, `Admit`, `Reshuffle`) are stated without it, by what they compute. `Valid()` states:
    - the lights are safe;
    - pool size plus `carsCreated` equals `goalCars`;
    - `passedCars` plus the tracked cars equals `carsCreated`;
    - `steps` never exceeds 200;
    - the cars are pairwise apart (cell and id), on the grid and numbered below `carsCreated`;
    - under the simple program no car has a pending turn.
- `option.dfy` (`Options`): the `Option` type returned by `get_car_at`.

How the model departs from the source:

- The source's dictionaries keyed by car id (`intended_moves`, `final_positions`) are sequences indexed by list position. Ids are distinct under `Valid()`, so the two agree.
- Each program's light dictionary always holds its four keys. It is a record with one field per direction.
- The program object is folded into the engine. Its lights are a field and `pattern` selects the cycle.

## Model

| member | source | states |
|---|---|---|
| Geometry.Ahead | traffic.py:114-121 | n cells ahead stays in the column (north, south) or row (east, west) of the direction and is exactly n cells away |
| Geometry.LeftOf | traffic.py:95-108 | the direction after a left turn (north to west, south to east, east to north, west to south) always switches axis and differs from the old one |
| Geometry.AtPivot | traffic.py:95-108 | a car is on its pivot exactly when it stands on the lane of the direction it turns into; on its own lane that cell is inside the box |
| Geometry.AtStopLine | traffic.py:329-332 | on its lane, a car is on its stop line exactly when it is outside the intersection box and the next cell is inside |
| Geometry.SpawnCell | traffic.py:78-85 | each direction enters on an edge cell of the grid; the cell behind it is off the grid; a car that goes straight and is never held leaves the grid on its 21st step |
| Geometry.LaneLayout | traffic.py:60-67 | along each lane the stop line is 8 steps from the spawn cell and no earlier; the pivot is 11 steps in and lies on the lane of the direction turned into |
| Signals.MustStop | traffic.py:326-327 | a car may enter exactly on a green arrow, or on green when going straight; on yellow and red every car stops |
| Signals.InitialLights | traffic.py:143-146 | the simple program starts with east/west green and north/south red, the protected program all red (165-168); both assignments are safe |
| Signals.CrossTrafficExcluded | traffic.py:325-327 | under safe lights, of two cars on crossing approaches at least one must wait at its stop line, whatever their turns |
| Vehicle.Turned | traffic.py:92-112 | a car with a pending left turn on its pivot swings to LeftOf its direction and clears the turn; any other car is unchanged; the cell never changes; a car still holding a turn is not on its pivot |
| Vehicle.Moved | traffic.py:90-121 | a move keeps the id and ends exactly one cell ahead along the new direction; the direction changes to LeftOf (clearing the turn) exactly for a left-turning car on its pivot, and otherwise direction and turn are kept |
| Vehicle.StraightForever | traffic.py:114-121 | a car without a turn keeps its direction and is exactly k cells ahead after k moves |
| Vehicle.TurnFiresOnce | traffic.py:92-121 | a turn at the pivot fires on the first move and never again; after k+1 moves the car is k+1 cells along the new direction |
| Vehicle.Car.constructor | traffic.py:71-85 | a new car has the given id, direction and turn and stands on its direction's spawn cell |
| Vehicle.Car.TakeTurn | traffic.py:92-112 | the in-place turn step computes Turned of the old car value |
| Vehicle.Car.Move | traffic.py:90-121 | the in-place move computes Moved of the old car value |
| Vehicle.FirstAt | traffic.py:282-283 | None exactly when no car stands on the cell; otherwise the first car in list order that does |
| Engine.Intersection.GetCarAt | traffic.py:282-283 | `get_car_at` returns None exactly when the cell is free, else the first tracked car on it |
| Motion.Intent | traffic.py:319-346 | a car intends its own cell or the next one; it moves only if both the next and the buffer cell are free; it stays when on its stop line facing a light it must stop at; otherwise it moves |
| Engine.Intersection.IsCarAhead | traffic.py:341 | true exactly when some tracked car stands on the next cell or on the buffer cell |
| Engine.Intersection.IntentOf | traffic.py:323-346 | the loop body of stage 1 computes Intent of car i |
| Engine.Intersection.ComputeIntents | traffic.py:319-346 | the stage 1 loop computes Intents of the tracked cars |
| Motion.ResolveFrom | traffic.py:352-367 | from car i on, every car ends on its own cell or on its intended cell, and only when no earlier mover claimed that cell |
| Motion.ResolveFromAt | traffic.py:352-367 | the closed form of first-come resolution from car i, given the cells already claimed |
| Motion.ResolveFirstCome | traffic.py:348-367 | a car takes its intended cell exactly when it intends to move and no earlier car intends to move into the same cell; otherwise it keeps its cell |
| Motion.LaterClaimantHeld | traffic.py:361-364 | of two cars moving into the same cell, the later one in list order stays where it is |
| Motion.ResolveApart | traffic.py:348-367 | cars on distinct cells, each staying or heading for a free cell, end on distinct cells |
| Engine.Intersection.ResolveMoves | traffic.py:348-367 | the stage 2 loop, with its claimed-cell set, computes Resolve of the current cells and the intents |
| Motion.Commit | traffic.py:370-387 | a committed car keeps its id and stands on its resolved cell; it swings to LeftOf and clears its turn exactly when it has a left turn and the resolved cell is its pivot; otherwise direction and turn are kept |
| Engine.Intersection.ApplyMoves | traffic.py:369-387 | the stage 3 loop updates each car object in place to Commit of its old value and its resolved cell |
| Motion.Moves | traffic.py:334-387 | stages 1 to 3 keep every id and move every car zero cells or one cell along its direction, never further |
| Motion.MovesApart | traffic.py:341-387 | cars apart in cells and ids before a tick are still apart after stages 1 to 3 |
| Motion.Survivors | traffic.py:390 | stage 4 never lengthens the list |
| Motion.SurvivorsMembers | traffic.py:390 | a car value survives exactly when it was tracked and its cell is on the grid |
| Motion.SurvivorsAppend | traffic.py:390 | filtering a concatenation is concatenating the filtered parts, so the survivors keep their relative order |
| Motion.SurvivorsApart | traffic.py:390 | dropping cars keeps the rest apart |
| Motion.OnGrid | traffic.py:390 | the comprehension over car objects keeps only cars of the list and never lengthens it |
| Motion.OnGridStates | traffic.py:390 | the objects it keeps are exactly the surviving car values, in order |
| Engine.Intersection.RemoveExited | traffic.py:389-392 | the tracked values become Survivors of the old ones; passedCars grows by exactly the number of cars dropped; no other field changes |
| Motion.AdvanceKeepsValid | traffic.py:319-392 | stages 1 to 4 keep the cars apart, on the grid, numbered below carsCreated and turn-free under the simple program |
| Engine.Intersection.Advance | traffic.py:319-392 | stages 1 to 4 turn the tracked values into Advanced of the old ones; the invariant holds; passedCars counts the dropped cars; no car is created |
| Motion.NewTurn | traffic.py:273-276 | a new car gets a left turn only under the protected-left program |
| Motion.SpawnKeepsValid | traffic.py:258-280 | adding a car with the next id on a free spawn cell keeps the car invariant |
| Engine.Intersection.Reshuffle | traffic.py:268 | the pool becomes a permutation of itself; nothing else changes |
| Engine.Intersection.Admit | traffic.py:271-280 | the pool's last direction is popped and one fresh car, numbered with the old carsCreated, is appended on its spawn cell; carsCreated grows by one |
| Engine.Intersection.SpawnCar | traffic.py:258-280 | the values, pool and created counter change as SpawnStep says: with an empty pool or the goal reached nothing changes; with the spawn cell taken the pool is reshuffled and no car is added; otherwise the pool is popped and one fresh car, numbered with the old carsCreated, with the popped direction and NewTurn, is appended on its spawn cell; the invariant holds |
| Motion.SpawnStageCounts | traffic.py:394-396 | stage 5 keeps the tracked cars as a prefix and adds at most one, only with room under the cap and the coin; each car added is counted as created and uses one pool entry |
| Engine.Intersection.SpawnStage | traffic.py:394-396 | spawn_car runs exactly when fewer than concurrentCars cars are tracked and the coin says so (SpawnStageStep); otherwise cars, pool and carsCreated are unchanged; the invariant holds |
| Engine.Intersection.UpdateCars | traffic.py:318-396 | one tick: stages 1 to 4 give Advanced of the old values and passedCars counts the dropped cars; stage 5 then acts on the advanced values as SpawnStageStep says, which fixes the new car's id, direction, turn and cell; the cap on tracked cars is preserved; the invariant holds |
| Engine.Intersection.CountedTick | traffic.py:131-132 | one counted step (steps + 1, then update_cars) takes the old frame to the new one by Tick; the invariant holds |
| Engine.TickConserves | traffic.py:131-132 | a tick adds one step, never lowers passedCars, and keeps every created car tracked or passed and the pool equal to the cars still to create |
| Engine.TicksConserve | traffic.py:129-132 | over any run of ticks the steps grow by one per tick, passedCars never goes down and the counters stay consistent |
| Spawning.Index | traffic.py:236 | every direction has a position in the direction list |
| Spawning.GenerateSpawnPool | traffic.py:235-253 | the pool has exactly goal entries and, after the shuffle, the multiplicities of the round-robin entries followed by the repeated ones |
| Spawning.EvenShare | traffic.py:243-244 | of n round-robin entries a direction gets n / 4, plus one if its position is below n % 4 |
| Spawning.RepeatedCount | traffic.py:247-250 | the random part holds only the drawn direction, as many times as its length |
| Spawning.PoolCount | traffic.py:235-253 | every direction's number of cars over the whole run: its even share plus all random entries if it was drawn |
| Engine.Intersection.constructor | traffic.py:217-233 | in test mode the engine starts with no car, zero counters, the program's initial lights and the shuffled pool; the invariant holds |
| Engine.Intersection.IsFinished | traffic.py:255-256 | the run is finished when the step cap or the goal is reached; under the invariant the goal is reached exactly when every car has been created and has passed |
| Engine.Intersection.RunPhase | traffic.py:128-135 | the returned trace runs from the old frame to the new one; each step is a Tick from an unfinished frame, and the phase ends after duration ticks or at the first finished frame (PhaseRun); a run finished on entry changes nothing; lights, invariant and cap are kept |
| Engine.Intersection.Phase | traffic.py:149-150 | a phase sets the lights to a safe assignment; its trace runs from the old frame to the new one and is a PhaseRun of the given duration under those lights |
| Engine.Intersection.Clearance | traffic.py:151-154 | the yellow phase of 3 ticks and the all-red phase of 2 end with all lights red and at most 5 ticks |
| Engine.Intersection.Release | traffic.py:149-154 | a green phase of one axis followed by its clearance ends all red, with at most duration + 5 ticks |
| Engine.Intersection.SimpleCycle | traffic.py:148-160 | the simple cycle (north/south 10-3-2, then east/west 10-3-2) uses only safe lights, ends all red and runs at most 30 ticks |
| Engine.Intersection.ProtectedNorthSouth | traffic.py:171-186 | green arrows 5, green 8, yellow 3 and all red 2 on north/south, all safe, end all red within 18 ticks |
| Engine.Intersection.ProtectedEastWest | traffic.py:188-203 | the same for east/west |
| Engine.Intersection.ProtectedLeftCycle | traffic.py:170-203 | the protected cycle uses only safe lights, ends all red and runs at most 36 ticks |
| Engine.Intersection.Cycle | traffic.py:398 | one cycle of the engine's program ends all red within 36 ticks and keeps the invariant |

## Left out

- Rendering and colour are not modelled: `get_color`, `Color`, `LIGHT_SYMBOL`, `get_light_parts`, `update_grid`, `print_state`, `__repr__`. The fields `color` and `stopped` are display state and are dropped.
- `time.sleep` and printing in `_run_phase` are left out. Only test mode is modelled.
- The `__main__` block is not modelled: argument parsing, range checks, the run loop and interrupt handling.
- Engine.Intersection.constructor: only test mode is modelled. Outside test mode the source also calls `spawn_car` `concurrent_cars` times. Those calls are what `SpawnCar` models.
- Engine.Intersection.constructor: `round(goal_cars * distribution_factor)` is floating point. It is the parameter `numEvenCars`, assumed to be at most the goal.
- Randomness is not computed:
  - `random.choice` of the direction is a constructor parameter.
  - The spawn coin flip and the left-turn draw (`random.random()` against `left_turn_percentage`) are the parameters `coin` and `drawLeft` of `UpdateCars`. `RunPhase` chooses them arbitrarily.
  - `random.shuffle` is any permutation, so only the multiset is kept.
- Engine.Intersection.Reshuffle: states the pool's multiset and length, not the distribution of `random.shuffle`.
- The source's dictionary lookups by car id (`intended_moves[car.id]`) are lookups by list position. They agree because ids are distinct under `Valid()`.
- The cycles are split for the proof:
  - `Phase` is one `lights.update` followed by one `_run_phase`.
  - `Clearance` is the yellow and all-red phases.
  - `Release` is a green phase followed by its clearance.
  - The call sequence and the light values are those of the source.
- Engine.Intersection.ProtectedEastWest, Engine.Intersection.ProtectedNorthSouth, Engine.Intersection.SimpleCycle: the step bound is an upper bound. Each phase may stop early once the run is finished.
- Engine.Intersection.Clearance, Engine.Intersection.Release, Engine.Intersection.SimpleCycle, Engine.Intersection.ProtectedNorthSouth, Engine.Intersection.ProtectedEastWest, Engine.Intersection.ProtectedLeftCycle, Engine.Intersection.Cycle: these do not pass on the traces of their phases. They state the final lights, the step bound, the invariant and the cap. What happens tick by tick is stated by `Phase` and `RunPhase` alone.
- The code has no crash counter, no crash tolerance and no dedicated turn-lane offset.
  - A contested cell leaves the later car where it is.
  - A straight car also passes on a green arrow: `should_stop_for_light` only stops it on a light other than green and green arrow.
  - The model follows the code.
