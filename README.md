# Snake: the game-state logic of both variants, in Dafny

The repository is a browser Snake game in two near-duplicate pages. In
`game.js` the snake dies on the walls of a canvas sized to the window and the
grid size follows a difficulty level. In `script.js` the canvas is a fixed
400 by 400 pixels of 20-pixel boxes, the snake wraps around its borders, and
only running into itself ends the game. Each page keeps its state in
module-level variables:

- the snake, as a list of cells, head first;
- the heading;
- the food cell;
- the score.

A timer calls the page's game loop once per tick, and a key handler changes
the heading.

This project models that state machine. It has three modules.

- `Grid` (`grid.dfy`) holds what both pages do alike:
  - pixel cells;
  - the arrow-key guard that refuses the exact reverse of the current heading (`Steer`);
  - one move of the body, which puts the new head in front and drops the tail unless the snake ate (`Slither`);
  - the self-collision scan from index 1 to the tail (`ScanForHead`);
  - the grid-aligned cell a pair of random numbers selects (`Pick`).
- `WallSnake` (`wall_snake.dfy`) is `game.js`.
- `WrapSnake` (`wrap_snake.dfy`) is `script.js`.

Each variant module first states the operations as functions on a `State`
value (`AfterMove`, `AfterTick`, `Restart`, ...). Then comes a class `Game`
whose fields are the page's globals. Its methods update the fields in place,
as the JavaScript does: `unshift` and `pop` on the snake, field writes to the
food, the if-chain of the key handler. Each method is proved to leave exactly
the state the function gives. The lemmas state what the game promises of
those functions:

- how the body moves;
- when the snake grows and scores;
- when the game ends, and what a reset restores;
- that the heading is never reversed by one key press;
- the invariants every tick keeps.

`Math.random()` is replaced by caller-supplied draws, `Draw(col, row)` with
natural numbers. A draw selects column `col % n`, where `n` is the number of
grid positions in the extent (`Slots`). That is the range of
`Math.floor(Math.random() * (extent / size))`.

The retry in `generateFood` recurses from inside `forEach`. It comes down to
taking the first draw of a sequence whose cell is off the snake. Once the
inner call returns, the food is off the snake, so the outer scan finds no
further match. The model writes it as a loop over the draws
(`WallSnake.Game.GenerateFood`). That loop is proved to stop at the first
free draw (`FirstFree`).

Two consequences of the code are proved as lemmas.

- **game.js, hard level.** A game over puts the head back at (200, 200), and moves change the head by whole grid steps. On the hard level the grid size is 15, and 200 is not a multiple of 15. So a game begun on the hard level from the start cell never has its head on the grid the food is drawn on. That covers pressing Start at page load and every game after a game over. The snake cannot eat, and the score stays 0 (`WallSnake.OutOfStepNeverEats`, `WallSnake.HardFreshFoodOutOfStep`, `WallSnake.HardRestartOutOfStep`, `WallSnake.Game.StartClicked`). The Start button does not reset the snake or the score. Switching to hard in the middle of a game can therefore leave the head on the 15-pixel grid, and then the snake can eat (`WallSnake.HardSwitchMidGameCanEat`).
- **script.js, food under the resting snake.** `randomFood` does not look at the snake, so a reset can put the food under the snake. The snake is still at rest, yet the next tick eats the food, and the tick after that finds the head on the body and resets the game (`WrapSnake.FoodUnderRestingSnakeEndsGame`).

In places the code departs from the usual rules of Snake, and the model
follows the code.

- In `script.js` the self-collision test runs on the current state, before the move (script.js:132-144).
- In `script.js` the food is not kept off the snake (script.js:93-96).
- A wrapped coordinate is set to the last box or to 0, not reduced modulo the canvas size (script.js:102-105). `WrapSnake.WrapStep` proves the two agree for every step the game can make, which is at most one box.
- The score is not monotone: a game over sets it to 0.

## Model

| member | source | states |
|---|---|---|
| `Grid.Steer` | game.js:76-86 | The key handlers' guarded if-chain, the specification `WallSnake.Game.KeyDown` and `WrapSnake.Game.ChangeDirection` are proved equal to; its meaning is stated by `Grid.SteerRejectsOnlyReversal` |
| `Grid.SteerRejectsOnlyReversal` | game.js:76-86 | From an axis heading (or from rest), an arrow key is taken exactly when its heading is not the exact reverse of the current one, any other key changes nothing, and the heading stays an axis heading |
| `Grid.SteerFromStill` | script.js:154-170 | From the resting heading (0,0) every arrow key is taken |
| `Grid.TwoKeysCanReverse` | game.js:76-86 | The guard compares only with the current heading, which each key updates at once, so two presses within one tick (Up, then Left while heading right) turn the snake onto its reverse |
| `Grid.Slither` | game.js:66-72 | After unshift and pop-unless-grown, the new head is at index 0, every later index holds the old segment one place earlier, and the length grows by one exactly when growing |
| `Grid.SelfCollides` | game.js:96-101 | The head equals a segment at index 1 or more: the specification `Grid.ScanForHead` is proved equal to |
| `Grid.ScanForHead` | game.js:96-101 | The index loop from 1 to the tail returns true iff the head equals some segment at index 1 or more |
| `Grid.Slots` | game.js:27-28 | The number of grid positions k * size inside [0, extent): at least one, the last inside the extent, one more would be outside |
| `Grid.Place` | game.js:27-28 | The coordinate a drawn number selects is inside [0, extent) and a multiple of the grid size |
| `Grid.Pick` | game.js:27-28 | A drawn food cell is inside the canvas, with both coordinates multiples of the grid size |
| `Grid.PickReachesEveryCell` | game.js:27-28 | Every grid-aligned cell of the canvas is selected by some draw |
| `WallSnake.FirstFree` | game.js:25-36 | Over the candidate cells the successive draws give, the retry stops at the first one off the body: that cell is free and every earlier candidate is on the body |
| `WallSnake.SpotsAt` | game.js:25-36 | The candidate cells are the cells of the draws, one per draw, in order |
| `WallSnake.GeneratedFood` | game.js:25-36 | The food ends up off every snake segment, inside the canvas, grid-aligned, and is the cell of one of the draws |
| `WallSnake.Game.GenerateFood` | game.js:25-36 | The draw-and-retry loop leaves the food at the first free draw, touching nothing but the food |
| `WallSnake.AfterMove` | game.js:62-73 | The state after updateSnake, the specification `WallSnake.Game.UpdateSnake` is proved equal to; its properties are `WallSnake.MoveEffect` and `WallSnake.GrowsIffEats` |
| `WallSnake.Game.UpdateSnake` | game.js:62-73 | The fields become the moved state: new head in front, tail dropped unless it ate; on eating, score plus 10 and new food off the grown snake |
| `WallSnake.MoveEffect` | game.js:62-73 | The new head is the old head plus heading times grid size; the rest are the old segments in order (all of them on eating, all but the tail otherwise); the score rises by exactly 10 on eating and is unchanged otherwise; the heading is unchanged |
| `WallSnake.GrowsIffEats` | game.js:66-72 | The length grows by one iff the new head equals the food, and is unchanged iff it does not |
| `WallSnake.EatingScenario` | game.js:62-73 | From the start cell heading right on a 20-pixel grid with food at (220,200), the snake becomes [(220,200),(200,200)] with score 10 and new food off it |
| `WallSnake.Game.KeyDown` | game.js:76-86 | The key handler sets the heading as the guarded if-chain does and keeps it a unit axis vector |
| `WallSnake.KeyKeepsInv` | game.js:76-86 | A key is taken iff it is an arrow that does not reverse the heading; the heading stays one of the four unit axis vectors |
| `WallSnake.Game.CheckCollisions` | game.js:89-102 | Returns true iff the head is outside [0,width) x [0,height) or equals a segment at index 1 or more |
| `WallSnake.Collides` | game.js:89-102 | The head is outside the canvas or on another segment: the specification `WallSnake.Game.CheckCollisions` is proved equal to |
| `WallSnake.EndsGame` | game.js:105-107 | The moved body collides: when `WallSnake.Game.GameLoop` reports game over |
| `WallSnake.Restart` | game.js:110-114 | The reset state of a game over; `WallSnake.TickEffect` and `WallSnake.HardRestartOutOfStep` state its properties |
| `WallSnake.AfterTick` | game.js:105-117 | The state after one tick, the specification `WallSnake.Game.GameLoop` is proved equal to; its properties are `WallSnake.TickEffect` and `WallSnake.TickKeepsInv` |
| `WallSnake.Game.GameLoop` | game.js:105-117 | Moves first, then tests; reports the score after the move; on a collision resets to snake [(200,200)], heading (1,0), score 0 and new food, otherwise keeps the moved state |
| `WallSnake.TickEffect` | game.js:105-117 | A game-over tick leaves snake [(200,200)], heading (1,0), score 0 and food inside the canvas and off the start cell; any other tick leaves the moved state, head inside the canvas and off the body; the score drops only on a game over |
| `WallSnake.TickKeepsInv` | game.js:105-114 | Every tick keeps the snake non-empty, the heading a unit axis vector and the score a non-negative multiple of 10 |
| `WallSnake.Difficulty` | game.js:127-146 | Every level gives one of the three settings (25,150), (20,100), (15,70) |
| `WallSnake.DifficultyLevels` | game.js:127-146 | easy, medium and hard give (25,150), (20,100), (15,70); any other level plays as medium; harder levels are faster |
| `WallSnake.Game.SetDifficulty` | game.js:127-146 | Sets grid size and speed to the level's setting and nothing else |
| `WallSnake.OutOfStepNeverEats` | game.js:63-68 | While the head is off the food's grid in x and the start cell is too, no tick eats, the score never rises, and the condition holds after the tick, resets included |
| `WallSnake.HardFreshFoodOutOfStep` | game.js:120-124 | On the hard grid, fresh food for a snake whose head is on the start cell leaves the game out of step, so `OutOfStepNeverEats` applies |
| `WallSnake.HardRestartOutOfStep` | game.js:110-114 | A game over on the hard grid restarts the game out of step |
| `WallSnake.HardSwitchMidGameCanEat` | game.js:149-153 | Start does not reset the snake: after three medium moves the head is at (240,180), on the 15-pixel grid, and it can eat there |
| `WallSnake.Game.StartClicked` | game.js:149-153 | The Start button sets the level's grid and speed and draws fresh food on the new grid, leaving snake, heading and score as they are; with the head on the start cell a hard game is out of step |
| `WallSnake.Game.constructor` | game.js:6-14 | The globals start as snake [(200,200)], heading (1,0), food (0,0), score 0, grid size 20, speed 100 |
| `WrapSnake.DrawnFood` | script.js:93-96 | The food is a box-aligned cell of the 400 x 400 canvas |
| `WrapSnake.RandomFoodMayCoverSnake` | script.js:93-96 | Some draw puts the food on the start cell (200,200): nothing keeps the food off the snake |
| `WrapSnake.Game.RandomFood` | script.js:93-96 | Sets the food to the drawn cell, whatever the snake occupies |
| `WrapSnake.Wrap` | script.js:101-105 | The four border tests in source order, the specification `WrapSnake.Game.MoveSnake` applies to the head; `WrapSnake.WrapStep` states its meaning |
| `WrapSnake.WrapEdges` | script.js:101-105 | One box beyond the left or top edge wraps to the last box (380); a coordinate at the right or bottom edge wraps to 0 |
| `WrapSnake.WrapInBounds` | script.js:99-105 | From a head inside the canvas, a step of at most one box per coordinate lands inside [0,400) x [0,400) |
| `WrapSnake.WrapStep` | script.js:99-105 | From a box of the canvas, a step along a possible heading lands on a box of the canvas, at (x + dx) mod 400, (y + dy) mod 400 |
| `WrapSnake.AfterMove` | script.js:98-117 | The state after moveSnake, the specification `WrapSnake.Game.MoveSnake` is proved equal to; its properties are `WrapSnake.MoveEffect` and `WrapSnake.MoveKeepsInv` |
| `WrapSnake.Game.MoveSnake` | script.js:98-117 | The fields become the moved state: wrapped head in front, tail popped unless it ate; on eating, score plus 10 and a new drawn food |
| `WrapSnake.MoveEffect` | script.js:98-117 | The new head is the wrapped old head plus heading; the rest are the old segments in order (all of them on eating, all but the tail otherwise); the score rises by exactly 10 on eating and is unchanged otherwise |
| `WrapSnake.GrowsIffEats` | script.js:107-116 | The length grows by one iff the wrapped head equals the food, and is unchanged iff it does not |
| `WrapSnake.MoveKeepsInv` | script.js:98-117 | A move keeps every segment on a box of the canvas, the heading possible and the score a non-negative multiple of 10 |
| `WrapSnake.Game.CheckCollision` | script.js:119-130 | Returns true iff the head equals a segment at index 1 or more; there is no wall test |
| `WrapSnake.Game.ResetGame` | script.js:146-152 | Sets snake [(200,200)], heading (0,0), score 0 and a drawn food |
| `WrapSnake.Restart` | script.js:146-152 | The reset state, the specification `WrapSnake.Game.ResetGame` is proved equal to |
| `WrapSnake.AfterTick` | script.js:132-144 | The state after one tick, the specification `WrapSnake.Game.GameLoop` is proved equal to; its properties are `WrapSnake.TickEffect` and `WrapSnake.TickKeepsInv` |
| `WrapSnake.Game.GameLoop` | script.js:132-144 | Tests the current state before moving; reports the score before the tick; on a collision resets without moving, otherwise makes exactly one move |
| `WrapSnake.TickEffect` | script.js:132-144 | A tick on a self-colliding state leaves snake [(200,200)], heading (0,0), score 0; any other tick is exactly one move; the score drops only on that reset |
| `WrapSnake.TickKeepsInv` | script.js:132-152 | Every tick, resets included, keeps the state invariant (segments and food on boxes of the canvas, heading at rest or one box along an axis, score a non-negative multiple of 10) |
| `WrapSnake.Game.ChangeDirection` | script.js:154-170 | Sets the heading as the guarded if-chain does and keeps it at rest or one box along an axis |
| `WrapSnake.KeyTakenUnlessReversal` | script.js:154-170 | A key is taken iff it is an arrow that does not reverse the heading |
| `WrapSnake.KeyFromStill` | script.js:154-170 | From rest every arrow is taken |
| `WrapSnake.KeyKeepsInv` | script.js:154-170 | The heading stays at rest or one box along an axis |
| `WrapSnake.StillSnakeStays` | script.js:99-115 | At rest, a one-box snake that does not eat stays on the same cell with nothing else changed |
| `WrapSnake.FoodUnderRestingSnakeEndsGame` | script.js:132-152 | A reset can draw the food onto the start cell; then the resting snake eats it (score 10, body [(200,200),(200,200)]) and the following tick resets |
| `WrapSnake.Game.constructor` | script.js:11-15 | The globals start as snake [(200,200)], heading (0,0), food (0,0), score 0 |

## Left out

- Drawing (`drawGame`, `drawSnake`, `drawFood`): canvas output with floating-point geometry. A game-over tick draws nothing, and that is not modelled either.
- DOM and browser plumbing: `addEventListener`, `getElementById`, `alert`, the score text, and reading the difficulty select. These are foreign calls. The alerted score is returned as `finalScore`.
- The timer (`setInterval`, `clearInterval`): one call of `GameLoop` is one tick. The speed is kept only as the integer `SetDifficulty` stores. Game over is returned as `over`; stopping the timer is not modelled.
- `startGame` in script.js: it is `ResetGame` then `RandomFood` plus starting the timer. In game.js the Start button is `WallSnake.Game.StartClicked`, without the timer and the canvas resize. `parseInt` of the select value in script.js is a DOM read.
- `adjustCanvasSize` and the resize listener (game.js:17-22, 156): the canvas size comes from the window as a float. The model takes the width and height as positive integers when the game is built, and they never change.
- `Math.random()`: replaced by caller-supplied draws. Which cells are likely is not modelled.
- WallSnake.Game.GenerateFood: requires a draw that misses the snake. On a full board the source recurses without end, and that is not modelled.
- Key events carry a string key. The model has the four arrows and `Other`, and every other key is ignored as in the source.
