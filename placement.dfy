/**
 * Where obstacles and food may be placed, and the rejection searches that
 * choose their cells. The random number generator is modelled as a finite
 * stream of draws (`draws`) read from a cursor; a search that reaches the
 * end of the stream fails, where the game itself would keep drawing.
 */
module Placement {
  import opened Wrappers
  import opened Geometry

  /** The obstacle type tags, stored in the game as the integers 0, 1 and 2. */
  datatype Kind = Stone | Mushroom | Flower {
    function Code(): nat {
      match this
      case Stone => 0
      case Mushroom => 1
      case Flower => 2
    }
  }

  /** An obstacle: its type and its cell. The rotation angle only affects drawing. */
  datatype Obstacle = Obstacle(kind: Kind, pos: Pos)

  /** A food item: its cell. The rotation angle only affects drawing. */
  datatype Food = Food(pos: Pos)

  /** A value taken from the draw stream, with the cursor just after the last draw used. */
  datatype Drawn<T> = Drawn(value: T, next: nat)

  /** The cell a food item is compared by: its stored height is replaced by the ground height. */
  function FoodCell(f: Food): Pos {
    Ground(f.pos.x, f.pos.z)
  }

  predicate NotOnSnake(snake: seq<Pos>, p: Pos) {
    forall j :: 0 <= j < |snake| ==> snake[j] != p
  }

  predicate NotOnObstacle(obstacles: seq<Obstacle>, p: Pos) {
    forall j :: 0 <= j < |obstacles| ==> obstacles[j].pos != p
  }

  predicate NotOnFood(food: seq<Food>, p: Pos) {
    forall j :: 0 <= j < |food| ==> FoodCell(food[j]) != p
  }

  /** The acceptance rule for an obstacle cell: no snake segment and no obstacle there. */
  predicate ObstacleFree(snake: seq<Pos>, obstacles: seq<Obstacle>, p: Pos) {
    NotOnSnake(snake, p) && NotOnObstacle(obstacles, p)
  }

  /** The acceptance rule for a food cell: also no food item there. */
  predicate FoodFree(snake: seq<Pos>, obstacles: seq<Obstacle>, food: seq<Food>, p: Pos) {
    ObstacleFree(snake, obstacles, p) && NotOnFood(food, p)
  }

  predicate DistinctPositions(obstacles: seq<Obstacle>) {
    forall i, j :: 0 <= i < j < |obstacles| ==> obstacles[i].pos != obstacles[j].pos
  }

  predicate DistinctFood(food: seq<Food>) {
    forall i, j :: 0 <= i < j < |food| ==> FoodCell(food[i]) != FoodCell(food[j])
  }

  /**
   * The placement invariant of the board: no two obstacles share a cell, no
   * two food items share a ground cell, and neither stands on the snake, nor
   * food on an obstacle.
   */
  predicate WellPlaced(snake: seq<Pos>, obstacles: seq<Obstacle>, food: seq<Food>) {
    && DistinctPositions(obstacles)
    && (forall i :: 0 <= i < |obstacles| ==> NotOnSnake(snake, obstacles[i].pos))
    && DistinctFood(food)
    && (forall i :: 0 <= i < |food| ==> FoodFree(snake, obstacles, food[..i], FoodCell(food[i])))
  }

  // ---------------------------------------------------------------------
  // Food

  /** The food candidate built from the two draws at cursor `i` (x first, then z). */
  function FoodCandidate(mr: nat, draws: seq<nat>, i: nat): (p: Pos)
    requires i + 1 < |draws|
    ensures InRange(mr, p) && p.y == GROUND_HEIGHT
  {
    Ground(Coord(mr, draws[i]), Coord(mr, draws[i + 1]))
  }

  /**
   * The rejection loop of food placement: attempts take two draws each, and
   * the first attempt whose cell is free is accepted. The result is the
   * cursor after the accepted attempt, or None when the draws run out first.
   */
  function SearchFood(mr: nat, snake: seq<Pos>, obstacles: seq<Obstacle>, food: seq<Food>,
                      draws: seq<nat>, i: nat): (r: Option<nat>)
    decreases |draws| - i
    ensures r.Some? ==> i + 2 <= r.value <= |draws| && (r.value - i) % 2 == 0
    ensures r.Some? ==> FoodFree(snake, obstacles, food, FoodCandidate(mr, draws, r.value - 2))
  {
    if i + 1 >= |draws| then None
    else if FoodFree(snake, obstacles, food, FoodCandidate(mr, draws, i)) then Some(i + 2)
    else SearchFood(mr, snake, obstacles, food, draws, i + 2)
  }

  /**
   * The search takes the first free attempt: every attempt before the
   * accepted one, or every attempt when the draws run out, was occupied.
   */
  lemma {:induction false} SearchFoodFirstFree(mr: nat, snake: seq<Pos>, obstacles: seq<Obstacle>,
                                               food: seq<Food>, draws: seq<nat>, i: nat)
    decreases |draws| - i
    ensures SearchFood(mr, snake, obstacles, food, draws, i).Some? ==>
      forall j :: i <= j < SearchFood(mr, snake, obstacles, food, draws, i).value - 2 && (j - i) % 2 == 0 ==>
        !FoodFree(snake, obstacles, food, FoodCandidate(mr, draws, j))
    ensures SearchFood(mr, snake, obstacles, food, draws, i).None? ==>
      forall j :: i <= j && j + 1 < |draws| && (j - i) % 2 == 0 ==>
        !FoodFree(snake, obstacles, food, FoodCandidate(mr, draws, j))
  {
    if i + 1 < |draws| && !FoodFree(snake, obstacles, food, FoodCandidate(mr, draws, i)) {
      SearchFoodFirstFree(mr, snake, obstacles, food, draws, i + 2);
      var r := SearchFood(mr, snake, obstacles, food, draws, i);
      assert r == SearchFood(mr, snake, obstacles, food, draws, i + 2);
      var bound := if r.Some? then r.value - 2 else |draws| - 1;
      forall j | i <= j < bound && (j - i) % 2 == 0
        ensures !FoodFree(snake, obstacles, food, FoodCandidate(mr, draws, j))
      {
        if j != i {
          assert i + 2 <= j && (j - (i + 2)) % 2 == 0;
        }
      }
    }
  }

  /** One unrolling of SearchFood at an attempt that the draws still cover. */
  lemma SearchFoodStep(mr: nat, snake: seq<Pos>, obstacles: seq<Obstacle>, food: seq<Food>,
                       draws: seq<nat>, i: nat)
    requires i + 1 < |draws|
    ensures FoodFree(snake, obstacles, food, FoodCandidate(mr, draws, i)) ==>
      SearchFood(mr, snake, obstacles, food, draws, i) == Some(i + 2)
    ensures !FoodFree(snake, obstacles, food, FoodCandidate(mr, draws, i)) ==>
      SearchFood(mr, snake, obstacles, food, draws, i) == SearchFood(mr, snake, obstacles, food, draws, i + 2)
  {
  }

  /** The three scans of one food attempt; the result is the `checkOthers` flag. */
  method FoodRejected(snake: seq<Pos>, obstacles: seq<Obstacle>, food: seq<Food>, p: Pos)
    returns (checkOthers: bool)
    ensures checkOthers <==> !FoodFree(snake, obstacles, food, p)
  {
    checkOthers := false;
    for j := 0 to |snake|
      invariant checkOthers <==> !NotOnSnake(snake[..j], p)
    {
      if snake[j] == p {
        checkOthers := true;
      }
    }
    assert snake[..|snake|] == snake;
    for j := 0 to |obstacles|
      invariant checkOthers <==> !NotOnSnake(snake, p) || !NotOnObstacle(obstacles[..j], p)
    {
      if obstacles[j].pos == p {
        checkOthers := true;
      }
    }
    assert obstacles[..|obstacles|] == obstacles;
    for j := 0 to |food|
      invariant checkOthers <==>
        !NotOnSnake(snake, p) || !NotOnObstacle(obstacles, p) || !NotOnFood(food[..j], p)
    {
      var foodPos := food[j].pos.(y := GROUND_HEIGHT);
      if foodPos == p {
        checkOthers := true;
      }
    }
    assert food[..|food|] == food;
  }

  /** An accepted food cell keeps the board well placed. */
  lemma {:induction false} PlaceFoodKeepsPlaced(mr: nat, snake: seq<Pos>, obstacles: seq<Obstacle>,
                                                food: seq<Food>, draws: seq<nat>, i: nat)
    requires WellPlaced(snake, obstacles, food)
    requires SearchFood(mr, snake, obstacles, food, draws, i).Some?
    ensures WellPlaced(snake, obstacles,
      food + [Food(FoodCandidate(mr, draws, SearchFood(mr, snake, obstacles, food, draws, i).value - 2))])
  {
    var p := FoodCandidate(mr, draws, SearchFood(mr, snake, obstacles, food, draws, i).value - 2);
    var food' := food + [Food(p)];
    assert FoodCell(Food(p)) == p;
    assert food'[..|food|] == food;
    forall k | 0 <= k < |food'|
      ensures FoodFree(snake, obstacles, food'[..k], FoodCell(food'[k]))
    {
      if k < |food| {
        assert food'[..k] == food[..k];
      }
    }
    forall a, b | 0 <= a < b < |food'|
      ensures FoodCell(food'[a]) != FoodCell(food'[b])
    {
      if b == |food| {
        assert FoodCell(food'[a]) == FoodCell(food[a]);
      }
    }
  }

  /**
   * `n` food placements in a row, each searching from where the previous one
   * stopped and against the food placed before it. The result is the food
   * list and the cursor after the last accepted attempt, or None when one
   * of the searches runs out of draws.
   */
  function FoodRun(mr: nat, snake: seq<Pos>, obstacles: seq<Obstacle>, food: seq<Food>,
                   draws: seq<nat>, i: nat, n: nat): (r: Option<Drawn<seq<Food>>>)
    decreases n
    ensures r.Some? ==> |r.value.value| == |food| + n && r.value.value[..|food|] == food
  {
    if n == 0 then Some(Drawn(food, i))
    else
      match SearchFood(mr, snake, obstacles, food, draws, i)
      case None => None
      case Some(j) =>
        var food' := food + [Food(FoodCandidate(mr, draws, j - 2))];
        var r := FoodRun(mr, snake, obstacles, food', draws, j, n - 1);
        assert r.Some? ==> r.value.value[..|food|] == r.value.value[..|food'|][..|food|];
        r
  }

  /** One unrolling of FoodRun: its first placement is what SearchFood gives. */
  lemma FoodRunStep(mr: nat, snake: seq<Pos>, obstacles: seq<Obstacle>, food: seq<Food>,
                    draws: seq<nat>, i: nat, n: nat)
    requires n > 0
    ensures SearchFood(mr, snake, obstacles, food, draws, i).None? ==>
      FoodRun(mr, snake, obstacles, food, draws, i, n).None?
    ensures SearchFood(mr, snake, obstacles, food, draws, i).Some? ==>
      FoodRun(mr, snake, obstacles, food, draws, i, n)
        == FoodRun(mr, snake, obstacles,
                   food + [Food(FoodCandidate(mr, draws, SearchFood(mr, snake, obstacles, food, draws, i).value - 2))],
                   draws, SearchFood(mr, snake, obstacles, food, draws, i).value, n - 1)
  {
  }

  /** A run of food placements keeps the board well placed. */
  lemma {:induction false} FoodRunKeepsPlaced(mr: nat, snake: seq<Pos>, obstacles: seq<Obstacle>,
                                              food: seq<Food>, draws: seq<nat>, i: nat, n: nat)
    requires WellPlaced(snake, obstacles, food)
    decreases n
    ensures FoodRun(mr, snake, obstacles, food, draws, i, n).Some? ==>
      WellPlaced(snake, obstacles, FoodRun(mr, snake, obstacles, food, draws, i, n).value.value)
  {
    if n > 0 {
      var s := SearchFood(mr, snake, obstacles, food, draws, i);
      if s.Some? {
        PlaceFoodKeepsPlaced(mr, snake, obstacles, food, draws, i);
        FoodRunKeepsPlaced(mr, snake, obstacles, food + [Food(FoodCandidate(mr, draws, s.value - 2))],
                           draws, s.value, n - 1);
      }
    }
  }

  // ---------------------------------------------------------------------
  // Obstacles

  /**
   * The per-axis rejection loop of obstacle placement: draw until the
   * coordinate is at least 2 away from 0. The result is that coordinate and
   * the cursor after it, or None when the draws run out first.
   */
  function DrawFar(mr: nat, draws: seq<nat>, i: nat): (r: Option<Drawn<int>>)
    decreases |draws| - i
    ensures r.Some? ==> i < r.value.next <= |draws|
    ensures r.Some? ==> r.value.value == Coord(mr, draws[r.value.next - 1]) && Abs(r.value.value) >= 2
    ensures r.Some? ==> forall j :: i <= j < r.value.next - 1 ==> Abs(Coord(mr, draws[j])) < 2
    ensures r.None? ==> forall j :: i <= j < |draws| ==> Abs(Coord(mr, draws[j])) < 2
  {
    if i >= |draws| then None
    else if Abs(Coord(mr, draws[i])) >= 2 then Some(Drawn(Coord(mr, draws[i]), i + 1))
    else DrawFar(mr, draws, i + 1)
  }

  /** With a play radius below 2 no coordinate is far enough, so no obstacle axis can ever be drawn. */
  lemma SmallRadiusNeverDraws(mr: nat, draws: seq<nat>, i: nat)
    requires mr < 2
    ensures DrawFar(mr, draws, i).None?
  {
  }

  /** One obstacle attempt: an x coordinate, then a z coordinate, each by DrawFar. */
  function ObstacleCandidate(mr: nat, draws: seq<nat>, i: nat): (r: Option<Drawn<Pos>>)
    ensures r.Some? ==> i + 2 <= r.value.next <= |draws|
    ensures r.Some? ==> Far(r.value.value) && InRange(mr, r.value.value) && r.value.value.y == GROUND_HEIGHT
  {
    match DrawFar(mr, draws, i)
    case None => None
    case Some(x) =>
      match DrawFar(mr, draws, x.next)
      case None => None
      case Some(z) => Some(Drawn(Ground(x.value, z.value), z.next))
  }

  /**
   * The outer rejection loop of one obstacle: repeat attempts until the cell
   * holds neither a snake segment nor an obstacle.
   */
  function SearchObstacle(mr: nat, snake: seq<Pos>, obstacles: seq<Obstacle>, draws: seq<nat>, i: nat)
    : (r: Option<Drawn<Pos>>)
    decreases |draws| - i
    ensures r.Some? ==> i + 2 <= r.value.next <= |draws|
    ensures r.Some? ==> ObstacleFree(snake, obstacles, r.value.value)
    ensures r.Some? ==> Far(r.value.value) && InRange(mr, r.value.value) && r.value.value.y == GROUND_HEIGHT
    ensures ObstacleCandidate(mr, draws, i).Some? && ObstacleFree(snake, obstacles, ObstacleCandidate(mr, draws, i).value.value)
      ==> r == ObstacleCandidate(mr, draws, i)
    ensures ObstacleCandidate(mr, draws, i).None? ==> r.None?
  {
    match ObstacleCandidate(mr, draws, i)
    case None => None
    case Some(c) =>
      if ObstacleFree(snake, obstacles, c.value) then Some(c)
      else SearchObstacle(mr, snake, obstacles, draws, c.next)
  }

  /** One unrolling of SearchObstacle: a free attempt ends the search, an occupied one hands over to the next. */
  lemma SearchObstacleStep(mr: nat, snake: seq<Pos>, obstacles: seq<Obstacle>, draws: seq<nat>, i: nat)
    requires ObstacleCandidate(mr, draws, i).Some?
    ensures ObstacleFree(snake, obstacles, ObstacleCandidate(mr, draws, i).value.value) ==>
      SearchObstacle(mr, snake, obstacles, draws, i) == ObstacleCandidate(mr, draws, i)
    ensures !ObstacleFree(snake, obstacles, ObstacleCandidate(mr, draws, i).value.value) ==>
      SearchObstacle(mr, snake, obstacles, draws, i)
        == SearchObstacle(mr, snake, obstacles, draws, ObstacleCandidate(mr, draws, i).value.next)
  {
  }

  /**
   * The chain of obstacle attempts the draws from cursor `i` yield, each
   * starting where the previous one ended, until the draws no longer
   * complete an attempt.
   */
  function Attempts(mr: nat, draws: seq<nat>, i: nat): (r: seq<Drawn<Pos>>)
    decreases |draws| - i
    ensures |r| == 0 <==> ObstacleCandidate(mr, draws, i).None?
    ensures |r| > 0 ==> Some(r[0]) == ObstacleCandidate(mr, draws, i)
    ensures forall t :: 0 <= t < |r| - 1 ==> Some(r[t + 1]) == ObstacleCandidate(mr, draws, r[t].next)
    ensures |r| > 0 ==> ObstacleCandidate(mr, draws, r[|r| - 1].next).None?
  {
    match ObstacleCandidate(mr, draws, i)
    case None => []
    case Some(c) => [c] + Attempts(mr, draws, c.next)
  }

  /** Every attempt among the first `n` of a chain is occupied. */
  predicate AllOccupied(snake: seq<Pos>, obstacles: seq<Obstacle>, a: seq<Drawn<Pos>>, n: nat)
    requires n <= |a|
  {
    forall u :: 0 <= u < n ==> !ObstacleFree(snake, obstacles, a[u].value)
  }

  /** A chain that does not end at once is its first attempt followed by the chain after it. */
  lemma AttemptsCons(mr: nat, draws: seq<nat>, i: nat)
    requires ObstacleCandidate(mr, draws, i).Some?
    ensures Attempts(mr, draws, i)
      == [ObstacleCandidate(mr, draws, i).value] + Attempts(mr, draws, ObstacleCandidate(mr, draws, i).value.next)
  {
  }

  /** Putting an occupied attempt in front of a chain of occupied attempts. */
  lemma OccupiedCons(snake: seq<Pos>, obstacles: seq<Obstacle>, c: Drawn<Pos>, rest: seq<Drawn<Pos>>, n: nat)
    requires n <= |rest| && !ObstacleFree(snake, obstacles, c.value) && AllOccupied(snake, obstacles, rest, n)
    ensures AllOccupied(snake, obstacles, [c] + rest, n + 1)
  {
    var a := [c] + rest;
    forall u | 0 <= u < n + 1
      ensures !ObstacleFree(snake, obstacles, a[u].value)
    {
      if u > 0 {
        assert a[u] == rest[u - 1];
      }
    }
  }

  /**
   * The obstacle search takes the first free attempt of the chain: every
   * attempt before the accepted one was occupied, and when the search fails
   * every attempt the draws allowed was occupied.
   */
  lemma {:induction false} SearchObstacleFirstFree(mr: nat, snake: seq<Pos>, obstacles: seq<Obstacle>,
                                                   draws: seq<nat>, i: nat)
    decreases |draws| - i
    ensures SearchObstacle(mr, snake, obstacles, draws, i).None? ==>
      AllOccupied(snake, obstacles, Attempts(mr, draws, i), |Attempts(mr, draws, i)|)
    ensures SearchObstacle(mr, snake, obstacles, draws, i).Some? ==>
      exists t :: 0 <= t < |Attempts(mr, draws, i)|
        && Attempts(mr, draws, i)[t] == SearchObstacle(mr, snake, obstacles, draws, i).value
        && AllOccupied(snake, obstacles, Attempts(mr, draws, i), t)
  {
    var cand := ObstacleCandidate(mr, draws, i);
    if cand.Some? {
      var c := cand.value;
      AttemptsCons(mr, draws, i);
      SearchObstacleStep(mr, snake, obstacles, draws, i);
      var a := Attempts(mr, draws, i);
      var rest := Attempts(mr, draws, c.next);
      if ObstacleFree(snake, obstacles, c.value) {
        assert a[0] == c;
        assert AllOccupied(snake, obstacles, a, 0);
      } else {
        SearchObstacleFirstFree(mr, snake, obstacles, draws, c.next);
        var r := SearchObstacle(mr, snake, obstacles, draws, c.next);
        if r.Some? {
          var t :| 0 <= t < |rest| && rest[t] == r.value && AllOccupied(snake, obstacles, rest, t);
          OccupiedCons(snake, obstacles, c, rest, t);
          assert a[t + 1] == rest[t];
        } else {
          OccupiedCons(snake, obstacles, c, rest, |rest|);
        }
      }
    }
  }

  /**
   * The type of the obstacle placed at loop index `k`: the first `stones`
   * indices are stones, the next `mushrooms` mushrooms, the rest flowers.
   * Inside the loop `k` is below the total, so the last branch of the
   * source's chain is always taken when the first two are not.
   */
  function KindAt(k: int, stones: int, mushrooms: int): (r: Kind)
    ensures r == Stone <==> k < stones
    ensures r == Mushroom <==> stones <= k < stones + mushrooms
    ensures 0 <= mushrooms ==> (r == Flower <==> stones + mushrooms <= k)
  {
    if k < stones then Stone
    else if k < stones + mushrooms then Mushroom
    else Flower
  }

  /** Types never decrease along the loop index. */
  lemma KindsNonDecreasing(k: int, l: int, stones: int, mushrooms: int)
    requires k <= l
    ensures KindAt(k, stones, mushrooms).Code() <= KindAt(l, stones, mushrooms).Code()
  {
  }

  /** What obstacle generation leaves behind: the list, the cursor, and whether every obstacle was placed. */
  datatype Outcome = Outcome(obstacles: seq<Obstacle>, next: nat, complete: bool)

  /** How many obstacles the loop `for (k = from; k < total; k++)` places. */
  function Remaining(total: int, k: int): nat {
    if k < total then total - k else 0
  }

  /**
   * Obstacle generation from loop index `k` on: each index appends one
   * obstacle, of type KindAt(k), at the cell found by SearchObstacle against
   * the list as it stands, so obstacles placed earlier in the same run are
   * avoided too.
   */
  function Generate(mr: nat, snake: seq<Pos>, obstacles: seq<Obstacle>,
                    stones: int, mushrooms: int, flowers: int,
                    draws: seq<nat>, i: nat, k: int): (r: Outcome)
    decreases |draws| - i
    ensures |obstacles| <= |r.obstacles| && r.obstacles[..|obstacles|] == obstacles
    ensures r.complete ==> |r.obstacles| == |obstacles| + Remaining(stones + mushrooms + flowers, k)
    ensures !r.complete ==> |r.obstacles| < |obstacles| + Remaining(stones + mushrooms + flowers, k)
  {
    if k >= stones + mushrooms + flowers then Outcome(obstacles, i, true)
    else
      match SearchObstacle(mr, snake, obstacles, draws, i)
      case None => Outcome(obstacles, |draws|, false)
      case Some(c) =>
        var obstacles' := obstacles + [Obstacle(KindAt(k, stones, mushrooms), c.value)];
        var r := Generate(mr, snake, obstacles', stones, mushrooms, flowers, draws, c.next, k + 1);
        assert r.obstacles[..|obstacles|] == r.obstacles[..|obstacles'|][..|obstacles|];
        r
  }

  /**
   * The obstacle at index `t` of `r` was placed by loop index `k + (t - base)`,
   * where `base` is the index the run started appending at: it has the type
   * that loop index calls for, lies in the play area outside both axes' dead
   * zones, and avoids the snake and every obstacle before it.
   */
  predicate PlacedAt(mr: nat, snake: seq<Pos>, r: seq<Obstacle>, t: nat, base: nat, k: int,
                     stones: int, mushrooms: int)
    requires t < |r|
  {
    && r[t].kind == KindAt(k + (t - base), stones, mushrooms)
    && Far(r[t].pos) && InRange(mr, r[t].pos) && r[t].pos.y == GROUND_HEIGHT
    && ObstacleFree(snake, r[..t], r[t].pos)
  }

  /** Every obstacle a run appends is placed as PlacedAt describes, in loop order. */
  lemma {:induction false} GeneratedEntries(mr: nat, snake: seq<Pos>, obstacles: seq<Obstacle>,
                                            stones: int, mushrooms: int, flowers: int,
                                            draws: seq<nat>, i: nat, k: int)
    decreases |draws| - i
    ensures forall t :: |obstacles| <= t < |Generate(mr, snake, obstacles, stones, mushrooms, flowers, draws, i, k).obstacles| ==>
      PlacedAt(mr, snake, Generate(mr, snake, obstacles, stones, mushrooms, flowers, draws, i, k).obstacles,
               t, |obstacles|, k, stones, mushrooms)
  {
    if k < stones + mushrooms + flowers {
      match SearchObstacle(mr, snake, obstacles, draws, i)
      case None =>
      case Some(c) =>
        var obstacles' := obstacles + [Obstacle(KindAt(k, stones, mushrooms), c.value)];
        GeneratedEntries(mr, snake, obstacles', stones, mushrooms, flowers, draws, c.next, k + 1);
        var r := Generate(mr, snake, obstacles', stones, mushrooms, flowers, draws, c.next, k + 1).obstacles;
        assert Generate(mr, snake, obstacles, stones, mushrooms, flowers, draws, i, k).obstacles == r;
        forall t | |obstacles| <= t < |r|
          ensures PlacedAt(mr, snake, r, t, |obstacles|, k, stones, mushrooms)
        {
          if t == |obstacles| {
            FirstAppended(mr, snake, obstacles, obstacles', r, c.value, k, stones, mushrooms);
          } else {
            assert PlacedAt(mr, snake, r, t, |obstacles'|, k + 1, stones, mushrooms);
          }
        }
    }
  }

  /** The first obstacle a run appends is placed as PlacedAt describes. */
  lemma FirstAppended(mr: nat, snake: seq<Pos>, obstacles: seq<Obstacle>, obstacles': seq<Obstacle>,
                      r: seq<Obstacle>, p: Pos, k: int, stones: int, mushrooms: int)
    requires obstacles' == obstacles + [Obstacle(KindAt(k, stones, mushrooms), p)]
    requires |obstacles'| <= |r| && r[..|obstacles'|] == obstacles'
    requires Far(p) && InRange(mr, p) && p.y == GROUND_HEIGHT && ObstacleFree(snake, obstacles, p)
    ensures PlacedAt(mr, snake, r, |obstacles|, |obstacles|, k, stones, mushrooms)
  {
    assert r[..|obstacles|] == obstacles;
    assert r[|obstacles|] == obstacles'[|obstacles|];
  }

  /** Generation keeps obstacle cells pairwise distinct, including among the new ones. */
  lemma {:induction false} GenerateKeepsDistinct(mr: nat, snake: seq<Pos>, obstacles: seq<Obstacle>,
                                                 stones: int, mushrooms: int, flowers: int,
                                                 draws: seq<nat>, i: nat, k: int)
    requires DistinctPositions(obstacles)
    ensures DistinctPositions(Generate(mr, snake, obstacles, stones, mushrooms, flowers, draws, i, k).obstacles)
  {
    var r := Generate(mr, snake, obstacles, stones, mushrooms, flowers, draws, i, k).obstacles;
    GeneratedEntries(mr, snake, obstacles, stones, mushrooms, flowers, draws, i, k);
    forall a, b | 0 <= a < b < |r|
      ensures r[a].pos != r[b].pos
    {
      if b < |obstacles| {
        assert r[a] == obstacles[a] && r[b] == obstacles[b];
      } else {
        assert PlacedAt(mr, snake, r, b, |obstacles|, k, stones, mushrooms);
        assert r[..b][a] == r[a];
      }
    }
  }

  /** Among the obstacles one run appends, types never decrease. */
  lemma {:induction false} GeneratedKindsOrdered(mr: nat, snake: seq<Pos>, obstacles: seq<Obstacle>,
                                                 stones: int, mushrooms: int, flowers: int,
                                                 draws: seq<nat>, i: nat, k: int)
    ensures forall a, b :: |obstacles| <= a <= b < |Generate(mr, snake, obstacles, stones, mushrooms, flowers, draws, i, k).obstacles| ==>
      Generate(mr, snake, obstacles, stones, mushrooms, flowers, draws, i, k).obstacles[a].kind.Code()
        <= Generate(mr, snake, obstacles, stones, mushrooms, flowers, draws, i, k).obstacles[b].kind.Code()
  {
    var r := Generate(mr, snake, obstacles, stones, mushrooms, flowers, draws, i, k).obstacles;
    GeneratedEntries(mr, snake, obstacles, stones, mushrooms, flowers, draws, i, k);
    forall a, b | |obstacles| <= a <= b < |r|
      ensures r[a].kind.Code() <= r[b].kind.Code()
    {
      assert PlacedAt(mr, snake, r, a, |obstacles|, k, stones, mushrooms);
      assert PlacedAt(mr, snake, r, b, |obstacles|, k, stones, mushrooms);
      KindsNonDecreasing(k + (a - |obstacles|), k + (b - |obstacles|), stones, mushrooms);
    }
  }

  /**
   * Generation keeps the board well placed when no food exists yet: the
   * obstacle search does not look at food, so this is what the game relies
   * on by generating obstacles before any food.
   */
  lemma {:induction false} GenerateKeepsPlaced(mr: nat, snake: seq<Pos>, obstacles: seq<Obstacle>,
                                               stones: int, mushrooms: int, flowers: int,
                                               draws: seq<nat>, i: nat, k: int)
    requires WellPlaced(snake, obstacles, [])
    ensures WellPlaced(snake, Generate(mr, snake, obstacles, stones, mushrooms, flowers, draws, i, k).obstacles, [])
  {
    var r := Generate(mr, snake, obstacles, stones, mushrooms, flowers, draws, i, k).obstacles;
    GenerateKeepsDistinct(mr, snake, obstacles, stones, mushrooms, flowers, draws, i, k);
    GeneratedEntries(mr, snake, obstacles, stones, mushrooms, flowers, draws, i, k);
    forall t | 0 <= t < |r|
      ensures NotOnSnake(snake, r[t].pos)
    {
      if t < |obstacles| {
        assert r[t] == obstacles[t];
      } else {
        assert PlacedAt(mr, snake, r, t, |obstacles|, k, stones, mushrooms);
      }
    }
  }

  /** Since obstacle search ignores food, generation after food exists can cover a food cell. */
  lemma GenerateIgnoresFood()
    ensures var food := [Food(Ground(2, 2))];
      var r := Generate(2, [], [], 1, 0, 0, [4, 4], 0, 0);
      WellPlaced([], [], food) && r.complete && !WellPlaced([], r.obstacles, food)
  {
    var food := [Food(Ground(2, 2))];
    var r := Generate(2, [], [], 1, 0, 0, [4, 4], 0, 0);
    assert Coord(2, 4) == 2;
    assert DrawFar(2, [4, 4], 0) == Some(Drawn(2, 1));
    assert DrawFar(2, [4, 4], 1) == Some(Drawn(2, 2));
    assert SearchObstacle(2, [], [], [4, 4], 0) == Some(Drawn(Ground(2, 2), 2));
    assert r.obstacles == [Obstacle(Stone, Ground(2, 2))];
    assert r.obstacles[0].pos == FoodCell(food[0]);
  }

  // ---------------------------------------------------------------------
  // Scanning methods of the obstacle loops

  /** The do-while on one axis: read draws until one gives a coordinate with |c| >= 2. */
  method DrawAxis(mr: nat, draws: seq<nat>, from: nat) returns (r: Option<Drawn<int>>)
    ensures r == DrawFar(mr, draws, from)
  {
    var i := from;
    while i < |draws|
      invariant from <= i
      invariant DrawFar(mr, draws, i) == DrawFar(mr, draws, from)
      decreases |draws| - i
    {
      var c := Coord(mr, draws[i]);
      i := i + 1;
      if Abs(c) >= 2 {
        return Some(Drawn(c, i));
      }
    }
    return None;
  }

  /** The two scans of one obstacle attempt; the result is the `checkOthers` flag. */
  method ObstacleRejected(snake: seq<Pos>, obstacles: seq<Obstacle>, p: Pos) returns (checkOthers: bool)
    ensures checkOthers <==> !ObstacleFree(snake, obstacles, p)
  {
    checkOthers := false;
    for j := 0 to |snake|
      invariant checkOthers <==> !NotOnSnake(snake[..j], p)
    {
      if snake[j] == p {
        checkOthers := true;
      }
    }
    assert snake[..|snake|] == snake;
    for j := 0 to |obstacles|
      invariant checkOthers <==> !NotOnSnake(snake, p) || !NotOnObstacle(obstacles[..j], p)
    {
      if obstacles[j].pos == p {
        checkOthers := true;
      }
    }
    assert obstacles[..|obstacles|] == obstacles;
  }

  /** The rejection loop of one obstacle: attempts until the cell is free. */
  method FindObstacleCell(mr: nat, snake: seq<Pos>, obstacles: seq<Obstacle>, draws: seq<nat>, from: nat)
    returns (r: Option<Drawn<Pos>>)
    ensures r == SearchObstacle(mr, snake, obstacles, draws, from)
  {
    var i := from;
    while true
      invariant SearchObstacle(mr, snake, obstacles, draws, i) == SearchObstacle(mr, snake, obstacles, draws, from)
      decreases |draws| - i
    {
      var x := DrawAxis(mr, draws, i);
      if x.None? {
        return None;
      }
      var z := DrawAxis(mr, draws, x.value.next);
      if z.None? {
        return None;
      }
      var p := Ground(x.value.value, z.value.value);
      var checkOthers := ObstacleRejected(snake, obstacles, p);
      if !checkOthers {
        return Some(Drawn(p, z.value.next));
      }
      i := z.value.next;
    }
  }
}
