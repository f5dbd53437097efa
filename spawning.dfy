/** The queue of directions new cars are drawn from
    (`Intersection._generate_spawn_pool`, traffic.py:235-253). */
module Spawning {
  import opened Geometry

  const Directions: seq<Direction> := [North, South, East, West]

  /** Position of `d` in Directions. */
  function Index(d: Direction): (i: nat)
    ensures i < 4 && Directions[i] == d
  {
    match d
    case North => 0
    case South => 1
    case East => 2
    case West => 3
  }

  /** The `n` evenly distributed entries: directions round-robin. */
  function EvenEntries(n: nat): seq<Direction> {
    seq(n, i requires 0 <= i < n => Directions[i % 4])
  }

  /** `n` copies of one direction. */
  function Repeated(d: Direction, n: nat): seq<Direction> {
    seq(n, _ => d)
  }

  /** The pool before it is shuffled: `numEven` round-robin entries, then the
      randomly chosen direction for the remaining `goal - numEven` entries. */
  function UnshuffledPool(goal: nat, numEven: nat, randomDirection: Direction): seq<Direction>
    requires numEven <= goal
  {
    EvenEntries(numEven) + Repeated(randomDirection, goal - numEven)
  }

  /** Builds the pool and shuffles it (the shuffle is any permutation). It
      holds exactly `goal` entries, with the unshuffled pool's multiplicities. */
  method GenerateSpawnPool(goal: nat, numEven: nat, randomDirection: Direction) returns (pool: seq<Direction>)
    requires numEven <= goal
    ensures |pool| == goal
    ensures multiset(pool) == multiset(UnshuffledPool(goal, numEven, randomDirection))
  {
    var built: seq<Direction> := [];
    var numRandom := goal - numEven;
    for i := 0 to numEven
      invariant built == EvenEntries(i)
    {
      built := built + [Directions[i % 4]];
    }
    if numRandom > 0 {
      for k := 0 to numRandom
        invariant built == EvenEntries(numEven) + Repeated(randomDirection, k)
      {
        built := built + [randomDirection];
      }
    }
    assert built == UnshuffledPool(goal, numEven, randomDirection);
    pool :| multiset(pool) == multiset(built);
  }

  /** The round-robin part gives every direction its even share: `n / 4`
      entries, plus one for the first `n % 4` directions. */
  lemma {:induction false} EvenShare(n: nat, d: Direction)
    ensures multiset(EvenEntries(n))[d] == n / 4 + (if Index(d) < n % 4 then 1 else 0)
  {
    if n > 0 {
      var m := n - 1;
      EvenShare(m, d);
      assert EvenEntries(n) == EvenEntries(m) + [Directions[m % 4]];
      assert Directions[m % 4] == d <==> Index(d) == m % 4;
      if m % 4 == 3 {
        assert n / 4 == m / 4 + 1 && n % 4 == 0;
      } else {
        assert n / 4 == m / 4 && n % 4 == m % 4 + 1;
      }
    }
  }

  lemma {:induction false} RepeatedCount(d: Direction, n: nat, e: Direction)
    ensures multiset(Repeated(d, n))[e] == if e == d then n else 0
  {
    if n > 0 {
      RepeatedCount(d, n - 1, e);
      assert Repeated(d, n) == Repeated(d, n - 1) + [d];
    }
  }

  /** How many cars each direction gets over the whole run: its even share of
      the `numEven` entries, plus all `goal - numEven` others for the randomly
      chosen direction. */
  lemma PoolCount(goal: nat, numEven: nat, randomDirection: Direction, d: Direction)
    requires numEven <= goal
    ensures multiset(UnshuffledPool(goal, numEven, randomDirection))[d] ==
              numEven / 4 + (if Index(d) < numEven % 4 then 1 else 0) +
              (if d == randomDirection then goal - numEven else 0)
  {
    EvenShare(numEven, d);
    RepeatedCount(randomDirection, goal - numEven, d);
  }
}
