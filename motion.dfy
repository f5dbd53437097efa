/** One tick of `Intersection.update_cars` (traffic.py:318-396) stated on car
    values: the intended cell of every car, first-come resolution of contested
    cells, the commit with left turns, and the removal of cars that left the
    grid. The engine's methods are proved to compute exactly these functions. */
module Motion {
  import opened Geometry
  import opened Signals
  import opened Vehicle

  /** Some car of `cs` stands on `p`. */
  predicate Occupied(cs: seq<CarState>, p: Pos) {
    exists i :: 0 <= i < |cs| && cs[i].Pos() == p
  }

  /** The cells of the cars, in list order. */
  function Positions(cs: seq<CarState>): seq<Pos> {
    seq(|cs|, i requires 0 <= i < |cs| => cs[i].Pos())
  }

  /** Two cars on different cells with different ids. */
  predicate Separate(a: CarState, b: CarState) {
    a.Pos() != b.Pos() && a.id != b.id
  }

  /** No two cars share a cell or an id. */
  predicate Apart(cs: seq<CarState>) {
    forall i, j :: 0 <= i < j < |cs| ==> Separate(cs[i], cs[j])
  }

  /** What holds of the tracked cars between ticks: they are apart, on the
      grid, numbered below `created`, and none of them turns under the simple
      program. */
  predicate CarsValid(cs: seq<CarState>, created: nat, pattern: Pattern) {
    Apart(cs) &&
    forall i :: 0 <= i < |cs| ==> Placed(cs[i], created, pattern)
  }

  /** A tracked car is on the grid, numbered below `created`, and has no
      turn under the simple program. */
  predicate Placed(c: CarState, created: nat, pattern: Pattern) {
    InGrid(c.Pos()) && c.id < created && (pattern == Simple ==> c.turn == NoTurn)
  }

  // ---------------------------------------------------------------------
  // Stage 1: intended cells (traffic.py:319-346)

  /** The cell car `i` intends to occupy after this tick. It stays put when a
      car stands one or two cells ahead of it (the following buffer), or when it
      is on its stop line and its light does not let it pass; otherwise it
      intends the next cell along its direction. */
  function Intent(cs: seq<CarState>, lights: Lights, i: nat): (p: Pos)
    requires i < |cs|
    ensures p == cs[i].Pos() || p == Ahead(cs[i].Pos(), cs[i].direction, 1)
    ensures p != cs[i].Pos() ==> !Occupied(cs, p) && !Occupied(cs, Ahead(cs[i].Pos(), cs[i].direction, 2))
    ensures AtStopLine(cs[i].direction, cs[i].Pos()) && MustStop(cs[i].turn, LightAt(lights, cs[i].direction)) ==>
              p == cs[i].Pos()
    ensures !Occupied(cs, Ahead(cs[i].Pos(), cs[i].direction, 1)) &&
            !Occupied(cs, Ahead(cs[i].Pos(), cs[i].direction, 2)) &&
            !(AtStopLine(cs[i].direction, cs[i].Pos()) && MustStop(cs[i].turn, LightAt(lights, cs[i].direction))) ==>
              p == Ahead(cs[i].Pos(), cs[i].direction, 1)
  {
    var c := cs[i];
    var next := Ahead(c.Pos(), c.direction, 1);
    var buffer := Ahead(c.Pos(), c.direction, 2);
    var carAhead := Occupied(cs, next) || Occupied(cs, buffer);
    var stopForLight := AtStopLine(c.direction, c.Pos()) && MustStop(c.turn, LightAt(lights, c.direction));
    if carAhead || stopForLight then c.Pos() else next
  }

  /** The intended cell of every car, in list order. */
  function Intents(cs: seq<CarState>, lights: Lights): seq<Pos> {
    seq(|cs|, i requires 0 <= i < |cs| => Intent(cs, lights, i))
  }

  // ---------------------------------------------------------------------
  // Stage 2: first-come resolution (traffic.py:348-367)

  /** Resolves cars `i` onwards in list order, `acc` holding the cells
      already decided for the cars before `i` and `claimed` the cells taken by
      earlier movers this tick. A car that intends to stay, or whose intended
      cell is already claimed, keeps its cell; any other car takes and claims
      its intended cell. */
  function ResolveFrom(cur: seq<Pos>, want: seq<Pos>, i: nat, acc: seq<Pos>, claimed: set<Pos>): (r: seq<Pos>)
    requires |cur| == |want| && i <= |cur| && |acc| == i
    ensures |r| == |cur| && r[..i] == acc
    ensures forall k :: i <= k < |r| ==> r[k] == cur[k] || (r[k] == want[k] && want[k] !in claimed)
    decreases |cur| - i
  {
    if i == |cur| then acc
    else if want[i] == cur[i] || want[i] in claimed then
      ResolveFrom(cur, want, i + 1, acc + [cur[i]], claimed)
    else
      ResolveFrom(cur, want, i + 1, acc + [want[i]], claimed + {want[i]})
  }

  /** The resolved cell of every car. */
  function Resolve(cur: seq<Pos>, want: seq<Pos>): (r: seq<Pos>)
    requires |cur| == |want|
  {
    ResolveFrom(cur, want, 0, [], {})
  }

  /** Some car from `i` to before `k` that intends to move also intends `want[k]`. */
  predicate ClaimedBetween(cur: seq<Pos>, want: seq<Pos>, i: nat, k: nat)
    requires |cur| == |want| && i <= k < |cur|
  {
    exists j :: i <= j < k && want[j] != cur[j] && want[j] == want[k]
  }

  /** Some car before `k` that intends to move also intends `want[k]`. */
  predicate ClaimedEarlier(cur: seq<Pos>, want: seq<Pos>, k: nat)
    requires |cur| == |want| && k < |cur|
  {
    ClaimedBetween(cur, want, 0, k)
  }

  lemma {:induction false} ResolveFromAt(cur: seq<Pos>, want: seq<Pos>, i: nat, acc: seq<Pos>, claimed: set<Pos>, k: nat)
    requires |cur| == |want| && i <= k < |cur| && |acc| == i
    ensures ResolveFrom(cur, want, i, acc, claimed)[k] ==
              if want[k] != cur[k] && want[k] !in claimed && !ClaimedBetween(cur, want, i, k) then want[k] else cur[k]
    decreases k - i
  {
    var moves := want[i] != cur[i] && want[i] !in claimed;
    var acc' := acc + [if moves then want[i] else cur[i]];
    var claimed' := if moves then claimed + {want[i]} else claimed;
    if k == i {
      assert ResolveFrom(cur, want, i, acc, claimed) == ResolveFrom(cur, want, i + 1, acc', claimed');
      assert acc'[k] == (if moves then want[i] else cur[i]);
    } else {
      ResolveFromAt(cur, want, i + 1, acc', claimed', k);
      if ClaimedBetween(cur, want, i + 1, k) {
        var j :| i + 1 <= j < k && want[j] != cur[j] && want[j] == want[k];
        assert want[j] != cur[j] && want[j] == want[k];
      }
      if ClaimedBetween(cur, want, i, k) && want[k] !in claimed' {
        var j :| i <= j < k && want[j] != cur[j] && want[j] == want[k];
        assert j != i;
      }
    }
  }

  /** First come, first served: a car takes its intended cell exactly when it
      intends to move and no earlier car in list order intends to move into the
      same cell; otherwise it keeps its current cell. */
  lemma ResolveFirstCome(cur: seq<Pos>, want: seq<Pos>, k: nat)
    requires |cur| == |want| && k < |cur|
    ensures Resolve(cur, want)[k] == if want[k] != cur[k] && !ClaimedEarlier(cur, want, k) then want[k] else cur[k]
  {
    ResolveFromAt(cur, want, 0, [], {}, k);
  }

  /** Of two cars moving into the same cell, the later one is held. */
  lemma LaterClaimantHeld(cur: seq<Pos>, want: seq<Pos>, i: nat, j: nat)
    requires |cur| == |want| && i < j < |cur|
    requires want[i] != cur[i] && want[i] == want[j]
    ensures Resolve(cur, want)[j] == cur[j]
  {
    ResolveFirstCome(cur, want, j);
  }

  /** If the cars start on distinct cells and every car either stays or
      intends a cell no car stands on, they end on distinct cells. */
  lemma ResolveApart(cur: seq<Pos>, want: seq<Pos>)
    requires |cur| == |want|
    requires forall i, j :: 0 <= i < j < |cur| ==> cur[i] != cur[j]
    requires forall i :: 0 <= i < |cur| ==> want[i] == cur[i] || want[i] !in cur
    ensures forall i, j :: 0 <= i < j < |cur| ==> Resolve(cur, want)[i] != Resolve(cur, want)[j]
  {
    var r := Resolve(cur, want);
    forall i, j | 0 <= i < j < |cur|
      ensures r[i] != r[j]
    {
      ResolveFirstCome(cur, want, i);
      ResolveFirstCome(cur, want, j);
      if want[i] == want[j] && want[i] != cur[i] {
        assert ClaimedEarlier(cur, want, j);
      }
    }
  }

  // ---------------------------------------------------------------------
  // Stage 3: commit positions, then left turns (traffic.py:369-387)

  /** Car `c` placed on its resolved cell `p`, then turned if it is on its pivot. */
  function Commit(c: CarState, p: Pos): (r: CarState)
    ensures r.id == c.id && r.Pos() == p
    ensures r.turn == NoTurn || r.turn == c.turn
    ensures c.turn == Left && AtPivot(c.direction, p) ==> r.direction == LeftOf(c.direction) && r.turn == NoTurn
    ensures !(c.turn == Left && AtPivot(c.direction, p)) ==> r.direction == c.direction && r.turn == c.turn
  {
    Turned(c.(x := p.0, y := p.1))
  }

  /** Every car committed to its resolved cell, in list order. */
  function Committed(cs: seq<CarState>, final: seq<Pos>): seq<CarState>
    requires |final| == |cs|
  {
    seq(|cs|, i requires 0 <= i < |cs| => Commit(cs[i], final[i]))
  }

  /** Stages 1 to 3 together. Every car keeps its id and ends on its own cell
      or on the single next cell along its direction, never further. */
  function Moves(cs: seq<CarState>, lights: Lights): (r: seq<CarState>)
    ensures |r| == |cs|
    ensures forall i :: 0 <= i < |cs| ==>
              r[i].id == cs[i].id &&
              (r[i].Pos() == cs[i].Pos() || r[i].Pos() == Ahead(cs[i].Pos(), cs[i].direction, 1))
  {
    Committed(cs, Resolve(Positions(cs), Intents(cs, lights)))
  }

  /** Cars that were apart stay apart: no tick makes two cars collide. */
  lemma MovesApart(cs: seq<CarState>, lights: Lights)
    requires Apart(cs)
    ensures Apart(Moves(cs, lights))
  {
    ResolveApart(Positions(cs), Intents(cs, lights));
  }

  // ---------------------------------------------------------------------
  // Stage 4: cars that left the grid (traffic.py:389-392)

  /** The cars still on the grid, in their original order. */
  function Survivors(cs: seq<CarState>): (r: seq<CarState>)
    ensures |r| <= |cs|
  {
    if cs == [] then []
    else
      var init := Survivors(cs[..|cs| - 1]);
      if InGrid(cs[|cs| - 1].Pos()) then init + [cs[|cs| - 1]] else init
  }

  /** A car survives exactly when it was tracked and is still on the grid. */
  lemma {:induction false} SurvivorsMembers(cs: seq<CarState>)
    ensures forall c :: c in Survivors(cs) <==> c in cs && InGrid(c.Pos())
    decreases |cs|
  {
    if cs != [] {
      var init := cs[..|cs| - 1];
      SurvivorsMembers(init);
      assert cs == init + [cs[|cs| - 1]];
    }
  }

  /** Survivors of a list extended by one car. */
  lemma SurvivorsSnoc(cs: seq<CarState>, c: CarState)
    ensures Survivors(cs + [c]) == Survivors(cs) + (if InGrid(c.Pos()) then [c] else [])
  {
    assert (cs + [c])[..|cs|] == cs;
  }

  /** Removing the cars that left keeps the others' relative order. */
  lemma {:induction false} SurvivorsAppend(a: seq<CarState>, b: seq<CarState>)
    ensures Survivors(a + b) == Survivors(a) + Survivors(b)
    decreases |b|
  {
    if b == [] {
      assert a + b == a;
    } else {
      var b' := b[..|b| - 1];
      var last := b[|b| - 1];
      SurvivorsAppend(a, b');
      assert b == b' + [last];
      assert a + b == (a + b') + [last];
      SurvivorsSnoc(a + b', last);
      SurvivorsSnoc(b', last);
      var tail := if InGrid(last.Pos()) then [last] else [];
      assert Survivors(a) + (Survivors(b') + tail) == (Survivors(a) + Survivors(b')) + tail;
    }
  }

  /** The list comprehension of stage 4 on the car objects: the cars whose
      cell is on the grid, in list order. */
  function OnGrid(cs: seq<Car>): (r: seq<Car>)
    reads cs
    ensures |r| <= |cs| && forall c :: c in r ==> c in cs
  {
    if cs == [] then []
    else
      var init := OnGrid(cs[..|cs| - 1]);
      var last := cs[|cs| - 1];
      if 0 <= last.x < GridWidth && 0 <= last.y < GridHeight then init + [last] else init
  }

  /** Filtering the objects keeps exactly the surviving car values. */
  lemma {:induction false} OnGridStates(cs: seq<Car>)
    ensures States(OnGrid(cs)) == Survivors(States(cs))
    decreases |cs|
  {
    if cs != [] {
      var init := cs[..|cs| - 1];
      var last := cs[|cs| - 1];
      OnGridStates(init);
      assert cs == init + [last];
      StatesAppend(init, last);
      SurvivorsSnoc(States(init), last.State());
      StatesAppend(OnGrid(init), last);
    }
  }

  lemma {:induction false} SurvivorsApart(cs: seq<CarState>)
    requires Apart(cs)
    ensures Apart(Survivors(cs))
    decreases |cs|
  {
    if cs != [] {
      var init := cs[..|cs| - 1];
      var last := cs[|cs| - 1];
      SurvivorsApart(init);
      SurvivorsMembers(init);
      forall c | c in Survivors(init)
        ensures c.Pos() != last.Pos() && c.id != last.id
      {
        var j :| 0 <= j < |init| && init[j] == c;
        assert cs[j] == c;
      }
    }
  }

  /** A whole tick up to the spawn stage. */
  function Advanced(cs: seq<CarState>, lights: Lights): seq<CarState> {
    Survivors(Moves(cs, lights))
  }

  /** Stages 1 to 4 preserve the car invariant: the remaining cars are still
      apart, all on the grid, numbered below `created`, and none of them gains
      a turn. */
  lemma AdvanceKeepsValid(cs: seq<CarState>, lights: Lights, created: nat, pattern: Pattern)
    requires CarsValid(cs, created, pattern)
    ensures CarsValid(Advanced(cs, lights), created, pattern)
  {
    var m := Moves(cs, lights);
    MovesApart(cs, lights);
    SurvivorsApart(m);
    var s := Survivors(m);
    SurvivorsMembers(m);
    forall i | 0 <= i < |s|
      ensures s[i].id < created && (pattern == Simple ==> s[i].turn == NoTurn)
    {
      assert s[i] in m;
      var j :| 0 <= j < |m| && m[j] == s[i];
      assert m[j] == Commit(cs[j], Resolve(Positions(cs), Intents(cs, lights))[j]);
    }
  }

  // ---------------------------------------------------------------------
  // Stage 5: spawning (traffic.py:258-280)

  /** The turn a new car gets: a left turn only under the protected-left
      program, and only when the draw against the left-turn ratio says so. */
  function NewTurn(pattern: Pattern, drawLeft: bool): (t: Turn)
    ensures t == Left ==> pattern == ProtectedLeft
  {
    if pattern == ProtectedLeft && drawLeft then Left else NoTurn
  }

  /** `spawn_car` on car values: `cs`, `pool` and `created` before, `cs'`,
      `pool'` and `created'` after. With the pool empty or the goal reached
      nothing changes. When the spawn cell of the pool's last direction is
      taken, the pool is reshuffled and no car is added. Otherwise that
      direction is popped and a car numbered `created` is appended on its
      spawn cell. */
  predicate SpawnStep(cs: seq<CarState>, pool: seq<Direction>, created: nat, goal: nat, pattern: Pattern, drawLeft: bool,
                      cs': seq<CarState>, pool': seq<Direction>, created': nat)
  {
    if pool == [] || created >= goal then
      cs' == cs && pool' == pool && created' == created
    else
      var d := pool[|pool| - 1];
      if Occupied(cs, SpawnCell(d)) then
        cs' == cs && created' == created && multiset(pool') == multiset(pool)
      else
        cs' == cs + [CarState(created, d, NewTurn(pattern, drawLeft), SpawnCell(d).0, SpawnCell(d).1)] &&
        pool' == pool[..|pool| - 1] && created' == created + 1
  }

  /** Stage 5 on car values: `spawn_car` runs exactly when fewer than
      `concurrent` cars are tracked and the coin says so; otherwise nothing
      changes. */
  predicate SpawnStageStep(cs: seq<CarState>, pool: seq<Direction>, created: nat, goal: nat, concurrent: nat,
                           pattern: Pattern, coin: bool, drawLeft: bool,
                           cs': seq<CarState>, pool': seq<Direction>, created': nat)
  {
    if |cs| < concurrent && coin then SpawnStep(cs, pool, created, goal, pattern, drawLeft, cs', pool', created')
    else cs' == cs && pool' == pool && created' == created
  }

  /** Stage 5 keeps the tracked cars and adds at most one, only when there is
      room under `concurrent` and the coin says so. Every car added is counted
      as created and takes one entry of the pool. */
  lemma SpawnStageCounts(cs: seq<CarState>, pool: seq<Direction>, created: nat, goal: nat, concurrent: nat,
                         pattern: Pattern, coin: bool, drawLeft: bool,
                         cs': seq<CarState>, pool': seq<Direction>, created': nat)
    requires SpawnStageStep(cs, pool, created, goal, concurrent, pattern, coin, drawLeft, cs', pool', created')
    ensures |cs| <= |cs'| <= |cs| + 1 && cs'[..|cs|] == cs
    ensures |cs'| == |cs| + 1 ==> coin && |cs| < concurrent
    ensures created' == created + |cs'| - |cs|
    ensures |pool'| + created' == |pool| + created
  {
    if |cs| < concurrent && coin && pool != [] && created < goal && Occupied(cs, SpawnCell(pool[|pool| - 1])) {
      assert |pool'| == |multiset(pool')| == |multiset(pool)| == |pool|;
    }
  }

  /** A car added on a free spawn cell with the next id keeps the invariant. */
  lemma SpawnKeepsValid(cs: seq<CarState>, created: nat, pattern: Pattern, d: Direction, t: Turn)
    requires CarsValid(cs, created, pattern)
    requires !Occupied(cs, SpawnCell(d))
    requires pattern == Simple ==> t == NoTurn
    ensures CarsValid(cs + [CarState(created, d, t, SpawnCell(d).0, SpawnCell(d).1)], created + 1, pattern)
  {
  }
}
