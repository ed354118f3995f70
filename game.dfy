/**
 * The game's placement state: the global food and obstacle vectors and the
 * live food counter, held by one object whose methods grow them the way the
 * game's generators do.
 */
module Game {
  import opened Wrappers
  import opened Geometry
  import opened Placement

  /** The obstacle counts the game starts with. */
  const START_STONES: int := 3
  const START_MUSHROOMS: int := 3
  const START_FLOWERS: int := 2

  /** How many food items the game keeps on the board. */
  const FOOD_TARGET: int := 3

  class World {
    var food: seq<Food>
    var obstacles: seq<Obstacle>
    var numOfFood: int

    /** The state before any generation: both vectors empty, no live food. */
    constructor ()
      ensures food == [] && obstacles == [] && numOfFood == 0
    {
      food := [];
      obstacles := [];
      numOfFood := 0;
    }

    /**
     * Places one food item. Attempts read two draws each (x, then z) from
     * cursor `from`; the first cell free of snake segments, obstacles and
     * food is taken. The new item stands at ground height, goes after the
     * existing ones and the live counter grows by one. The result is the
     * cursor after the accepted attempt, or None, with nothing changed,
     * when the draws run out.
     */
    method GenFood(snake: seq<Pos>, draws: seq<nat>, from: nat) returns (next: Option<nat>)
      modifies this
      ensures next == SearchFood(MAP_RADIUS, snake, old(obstacles), old(food), draws, from)
      ensures obstacles == old(obstacles)
      ensures next.Some? ==>
        && food == old(food) + [Food(FoodCandidate(MAP_RADIUS, draws, next.value - 2))]
        && numOfFood == old(numOfFood) + 1
      ensures next.None? ==> food == old(food) && numOfFood == old(numOfFood)
    {
      var mr := MAP_RADIUS;
      var i := from;
      while i + 1 < |draws|
        invariant food == old(food) && obstacles == old(obstacles) && numOfFood == old(numOfFood)
        invariant SearchFood(mr, snake, obstacles, food, draws, i) == SearchFood(mr, snake, obstacles, food, draws, from)
        decreases |draws| - i
      {
        var x := Coord(mr, draws[i]);
        var z := Coord(mr, draws[i + 1]);
        i := i + 2;
        var pos := Pos(x, GROUND_HEIGHT, z);
        var checkOthers := FoodRejected(snake, obstacles, food, pos);
        SearchFoodStep(mr, snake, obstacles, food, draws, i - 2);
        if !checkOthers {
          food := food + [Food(Pos(x, GROUND_HEIGHT, z))];
          numOfFood := numOfFood + 1;
          return Some(i);
        }
      }
      return None;
    }

    /**
     * Places `stones + mushrooms + flowers` obstacles after the existing
     * ones, of types stone, mushroom and flower in that order, each at the
     * first cell (outside the dead zones of both axes) that holds neither a
     * snake segment nor an obstacle, including those placed by this call.
     * `complete` is false when the draws ran out before every obstacle was
     * placed; the obstacles placed until then stay.
     */
    method GenerateObstacles(snake: seq<Pos>, mr: nat, stones: int, mushrooms: int, flowers: int,
                             draws: seq<nat>, from: nat) returns (next: nat, complete: bool)
      modifies this
      ensures Generate(mr, snake, old(obstacles), stones, mushrooms, flowers, draws, from, 0)
        == Outcome(obstacles, next, complete)
      ensures food == old(food) && numOfFood == old(numOfFood)
    {
      var numOfObstacles := stones + mushrooms + flowers;
      next := from;
      var i := 0;
      while i < numOfObstacles
        invariant 0 <= i
        invariant Generate(mr, snake, obstacles, stones, mushrooms, flowers, draws, next, i)
          == Generate(mr, snake, old(obstacles), stones, mushrooms, flowers, draws, from, 0)
        invariant food == old(food) && numOfFood == old(numOfFood)
        decreases numOfObstacles - i
      {
        var cell := FindObstacleCell(mr, snake, obstacles, draws, next);
        if cell.None? {
          next, complete := |draws|, false;
          return;
        }
        obstacles := obstacles + [Obstacle(KindAt(i, stones, mushrooms), cell.value.value)];
        next := cell.value.next;
        i := i + 1;
      }
      complete := true;
    }

    /**
     * Start of a game: obstacles for the snake (3 stones, 3 mushrooms,
     * 2 flowers) from the first draw on, then three food items, each
     * searching from where the previous search stopped. The obstacles are
     * those Generate places and the food those FoodRun places; `ok` holds
     * exactly when every obstacle and every food item found a cell. The
     * board stays well placed either way.
     */
    method Setup(snake: seq<Pos>, draws: seq<nat>) returns (ok: bool)
      requires food == [] && obstacles == [] && numOfFood == 0
      modifies this
      ensures obstacles
        == Generate(MAP_RADIUS, snake, [], START_STONES, START_MUSHROOMS, START_FLOWERS, draws, 0, 0).obstacles
      ensures ok <==>
        && Generate(MAP_RADIUS, snake, [], START_STONES, START_MUSHROOMS, START_FLOWERS, draws, 0, 0).complete
        && StartFood(snake, draws).Some?
      ensures StartFood(snake, draws).Some? ==>
        food == StartFood(snake, draws).value.value && numOfFood == FOOD_TARGET
      ensures ok ==> |obstacles| == 8 && |food| == 3 && numOfFood == 3
      ensures WellPlaced(snake, obstacles, food)
    {
      ghost var g := Generate(MAP_RADIUS, snake, [], START_STONES, START_MUSHROOMS, START_FLOWERS, draws, 0, 0);
      GenerateKeepsPlaced(MAP_RADIUS, snake, [], START_STONES, START_MUSHROOMS, START_FLOWERS, draws, 0, 0);
      var next, complete := GenerateObstacles(snake, MAP_RADIUS, START_STONES, START_MUSHROOMS,
                                              START_FLOWERS, draws, 0);
      assert obstacles == g.obstacles && next == g.next && complete == g.complete;
      ok := complete;
      var n := 0;
      while n < FOOD_TARGET
        invariant 0 <= n <= FOOD_TARGET
        invariant obstacles == g.obstacles
        invariant FoodRun(MAP_RADIUS, snake, obstacles, food, draws, next, FOOD_TARGET - n) == StartFood(snake, draws)
        invariant ok == g.complete
        invariant |food| == n && numOfFood == n
        invariant WellPlaced(snake, obstacles, food)
      {
        ghost var before := food;
        FoodRunStep(MAP_RADIUS, snake, obstacles, before, draws, next, FOOD_TARGET - n);
        var found := GenFood(snake, draws, next);
        if found.None? {
          ok := false;
          return;
        }
        PlaceFoodKeepsPlaced(MAP_RADIUS, snake, obstacles, before, draws, next);
        next := found.value;
        n := n + 1;
      }
    }
  }

  /** The three food placements that follow the start's obstacle generation. */
  function StartFood(snake: seq<Pos>, draws: seq<nat>): (r: Option<Drawn<seq<Food>>>)
    ensures r.Some? ==> |r.value.value| == FOOD_TARGET
  {
    var g := Generate(MAP_RADIUS, snake, [], START_STONES, START_MUSHROOMS, START_FLOWERS, draws, 0, 0);
    FoodRun(MAP_RADIUS, snake, g.obstacles, [], draws, g.next, FOOD_TARGET)
  }
}
