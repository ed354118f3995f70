# Snake: placement of obstacles and food, and the input latch

A model of the game-state core of a small 3D snake game (`snake/main.cpp`).
Two parts are covered.

- **Placement.** At start the game places typed obstacles (stones, then
  mushrooms, then flowers) and three food items on an integer grid of play
  radius 6. It uses rejection sampling on `rand()`: a cell is drawn and drawn
  again until it is free. An obstacle needs at least 2 units from the origin
  on each axis separately, and must avoid the snake and every obstacle placed
  so far. A food item must avoid the snake, the obstacles and the ground cell
  of every food item. The new food stands at height 1 and the live food
  counter goes up by one.
- **Input latch.** The key callback records only the first key press after a
  clear. That press sets one of five flags (left, up, right, down, reset), or
  the light mode, and in any case latches. The tick's `clearKeys` releases the
  latch and resets the flags.

The random number generator is a finite stream of draws (`draws: seq<nat>`)
read from a cursor. Each search has a partner: a pure function
(`SearchFood`, `DrawFar`, `SearchObstacle`, `Generate`). The methods that
mirror the game's loops are proved equal to it. The placement invariant
(`Placement.WellPlaced`) is proved about these functions. The latch is a
class over a five-element array. Its methods are proved against `OnKey` and
`Cleared`; the latch properties are proved about runs of key events.

Modules: `Wrappers` (Option), `Geometry` (cells, the drawn coordinate),
`Placement` (acceptance rules, search functions, scanning methods, lemmas),
`Game` (the `World` object holding the global food and obstacle vectors),
`Input` (the latch).

## Model

| member | source | states |
|---|---|---|
| Geometry.Coord | snake/main.cpp:365-366 | a coordinate `-mr + r % (2mr+1)` drawn from a non-negative `r` lies in `[-mr, mr]` |
| Geometry.CoordCovers | snake/main.cpp:399 | every coordinate of `[-mr, mr]` is produced by some draw |
| Placement.FoodCandidate | snake/main.cpp:365-367 | the food candidate of an attempt lies in the play area at ground height |
| Placement.SearchFood | snake/main.cpp:362-382 | an accepted attempt lies within the draws, after a whole number of two-draw attempts, and its cell is free of snake segments, obstacles and food ground cells |
| Placement.SearchFoodFirstFree | snake/main.cpp:362-382 | the search takes the first free attempt: every attempt before it was occupied; when the draws run out, every attempt was occupied |
| Placement.SearchFoodStep | snake/main.cpp:362-382 | a free attempt ends the search; an occupied one hands over to the next attempt |
| Placement.FoodRejected | snake/main.cpp:368-381 | the `checkOthers` flag is set exactly when the cell holds a snake segment, an obstacle, or a food item compared with its height forced to 1 |
| Placement.PlaceFoodKeepsPlaced | snake/main.cpp:384 | appending the accepted food keeps the board well placed (no shared cells, nothing on the snake, no food on an obstacle) |
| Placement.FoodRun | snake/main.cpp:104-106 | `n` chained food placements keep the earlier food as a prefix and add exactly `n` items when every search succeeds |
| Placement.FoodRunKeepsPlaced | snake/main.cpp:104-106 | a run of chained food placements keeps the board well placed |
| Placement.DrawFar | snake/main.cpp:398-400 | the per-axis loop accepts the first draw with `abs(c) >= 2`; every draw it skipped had `abs(c) < 2` |
| Placement.SmallRadiusNeverDraws | snake/main.cpp:398-404 | with a play radius below 2 the per-axis loop never accepts a draw |
| Placement.ObstacleCandidate | snake/main.cpp:398-406 | an obstacle candidate has `abs(x) >= 2` and `abs(z) >= 2` (each axis on its own), lies in the play area, at height 1 |
| Placement.SearchObstacle | snake/main.cpp:395-415 | the accepted obstacle cell lies in the play area outside both dead zones and avoids every snake segment and every obstacle in the list; a free first attempt is taken; no attempt means no cell |
| Placement.SearchObstacleStep | snake/main.cpp:395-415 | a free attempt ends the search; an occupied one (`checkOthers` set) hands over to a new attempt from the draws after it |
| Placement.Attempts | snake/main.cpp:395-415 | the chain of attempts: each starts where the previous one ended, and the chain stops exactly when the draws no longer complete an attempt |
| Placement.SearchObstacleFirstFree | snake/main.cpp:395-415 | the accepted cell is an attempt of the chain, and every attempt before it was occupied; when the search fails, every attempt of the chain was occupied |
| Placement.KindsNonDecreasing | snake/main.cpp:417-423 | type codes never decrease along the loop index |
| Placement.KindAt | snake/main.cpp:417-423 | index `i` is a stone exactly when `i < stones`, a mushroom exactly when `stones <= i < stones + mushrooms`, and (for a non-negative mushroom count) a flower exactly when `i >= stones + mushrooms` |
| Placement.Generate | snake/main.cpp:389-425 | the earlier obstacles are kept unchanged; exactly `stones + mushrooms + flowers` are appended when the draws suffice, fewer otherwise |
| Placement.GeneratedEntries | snake/main.cpp:391-424 | each appended obstacle has the type of its loop index, lies in range outside both dead zones, and avoids the snake and every obstacle before it, including ones placed earlier in the same call |
| Placement.GenerateKeepsDistinct | snake/main.cpp:406-415 | obstacle cells that are pairwise distinct on entry stay pairwise distinct |
| Placement.GeneratedKindsOrdered | snake/main.cpp:417-424 | among the appended obstacles, type codes are non-decreasing |
| Placement.GenerateKeepsPlaced | snake/main.cpp:103 | with no food yet, generation keeps the board well placed |
| Placement.GenerateIgnoresFood | snake/main.cpp:406-415 | obstacle search does not look at food: one stone can be placed on a food cell |
| Placement.DrawAxis | snake/main.cpp:398-404 | the per-axis do-while returns exactly what `DrawFar` specifies |
| Placement.ObstacleRejected | snake/main.cpp:406-414 | the `checkOthers` flag is set exactly when the cell holds a snake segment or an obstacle |
| Placement.FindObstacleCell | snake/main.cpp:395-415 | the rejection loop of one obstacle returns exactly what `SearchObstacle` specifies |
| Game.World.constructor | snake/main.cpp:67-69 | the food and obstacle vectors start empty and the counter at 0 |
| Game.World.GenFood | snake/main.cpp:357-386 | returns the `SearchFood` result; on success one `Food` at height 1 is appended after the unchanged old items and `numOfFood` rises by 1; obstacles unchanged |
| Game.World.GenerateObstacles | snake/main.cpp:388-426 | the new obstacle list, cursor and completion are those of `Generate`; food and counter unchanged |
| Game.StartFood | snake/main.cpp:103-106 | the three food placements after the start's obstacles yield exactly three items when they succeed |
| Game.World.Setup | snake/main.cpp:101-106 | the obstacles are exactly those `Generate` places for 3 stones, 3 mushrooms and 2 flowers; the food is exactly the `StartFood` result with the counter at 3 whenever the three searches succeed; `ok` holds exactly when all obstacles and all food found a cell, and then there are 8 obstacles and 3 food items; the board is well placed in every case |
| Input.OnKey | snake/main.cpp:538-552 | anything but a press, or any event while latched, changes nothing; a press while unlatched latches; only the key's own flag can change; only a light-mode key changes the light mode |
| Input.Cleared | snake/main.cpp:554-559 | a cleared latch has all five flags false, is unlatched, keeps the light mode, and is consistent exactly when the light mode is 0, 1 or 2 |
| Input.FirstPress | snake/main.cpp:539-540 | finds a press exactly when the events hold one, and the press found is preceded by no other press |
| Input.OnKeyKeepsConsistent | snake/main.cpp:538-552 | one event keeps at most one flag set, none while unlatched, and the light mode in {0, 1, 2} |
| Input.RunKeepsConsistent | snake/main.cpp:538-552 | between two clears, any sequence of events keeps the latch consistent |
| Input.LatchedIgnoresEvents | snake/main.cpp:540 | once latched, every further event is ignored |
| Input.FirstPressWins | snake/main.cpp:538-552 | from an unlatched state, a run of events has exactly the effect of its first press alone |
| Input.ClearRearms | snake/main.cpp:554-559 | after a clear the next press is accepted and sets its flag or light mode |
| Input.KeyLatch.constructor | snake/main.cpp:46-59 | flags all false and unlatched (lines 46-47), light mode 0 (line 59) |
| Input.KeyLatch.KeyCallback | snake/main.cpp:538-552 | the new state of the array, flag and light mode is `OnKey` of the old one; consistency is kept |
| Input.KeyLatch.ClearKeys | snake/main.cpp:554-559 | all five flags false and unlatched, light mode kept; consistency is kept |

## Left out

- `rand()` and `srand(time(NULL))`: a foreign, seeded generator. The model takes the draws as an input stream of non-negative integers.
- Termination of the rejection loops: the source loops until a free cell turns up, forever if none exists. The model reads a finite stream and reports failure when it runs out (`None`, or `complete == false`).
- The tick (snake/main.cpp:160-170): `changeDirection`, `checkCollision` and `move` belong to `Snake.h`, which is not part of this model. The snake enters only as its read-only sequence of segment cells.
- Snake.h, Food.h and Obstacle.h are not part of this model. Food and obstacle rotation angles are cosmetic floats and are left out.
- Float positions: cells are whole-numbered integer triples. glm's `==` on `vec3` becomes equality of those triples.
- `changeLightProperties`, all rendering, shaders, buffers, textures, window resizing and the draw loop: float or graphics code with no game logic.
- Game.World.GenerateObstacles: `mr` is taken as a non-negative integer; the float-to-int cast of the `mapRadius` argument and negative radii are not modelled.
- Input.KeyLatch.KeyCallback: the window, scan code and modifier arguments are ignored, as the source ignores them.
