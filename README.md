# Snake game engine and Player record, in Dafny

This project models the game logic of `SnakeMain` and the `Player` record.

`SnakeMain` runs a snake game in a 600 x 450 pixel window made of 30-pixel squares. Its state is:

- a heading (`direction`);
- a key gate (`moved`);
- a run flag (`running`);
- the list of segments, with the head first;
- one food square.

Every 0.3 s a timer tick runs these steps in order:

1. The last segment is moved one square ahead of the head and put in front.
2. The head is tested against the other segments, then against the walls. Either collision restarts the game.
3. If the head is on the food, the snake grows by one segment where the moved segment used to be, and the food is placed again.

A key press turns the snake, unless the new heading would reverse it. Only one key press is acted on per tick.

The model is split into four modules:

- `SnakeRules` (`snake_rules.dfy`) holds the game as a value (`Game`) and each transition as a function: `Step` for a tick, `Press` for a key, and `Stop`, `Start` and `Restart`.
- `SnakeProperties` (`snake_properties.dfy`) proves what those functions promise.
- `SnakeMain` (`snake_main.dfy`) is the imperative side. The class `SnakeGame` has the source's fields. Its methods `Tick`, `KeyPressed`, `StopGame`, `StartGame` and `RestartGame` update those fields in place. Each method is proved to move `Model()` exactly as the matching rule moves a `Game`. The method `CollidesWithBody` is the tick's collision loop.
- `Players` (`player.dfy`) is the `Player` class. It has three constructors, four getters and four setters. The Java `int` fields are modelled as a 32-bit `int32` newtype.

Coordinates are integer pixels, as in the game. All of them are multiples of 30.

`Math.random()` is replaced by its truncated result: the draw `(int)(Math.random() * (W - 30))`, which lies in `[0, W - 30)`. The caller passes these draws to `Tick` and to the constructor. The food coordinate is the draw rounded down to a multiple of 30 (`Align`).

As a result, food lands exactly on the cells with x in {0, 30, …, 540} and y in {0, 30, …, 390}. It never lands in the last column (x = 570) or the last row (y = 420).

Four behaviours of the code that are easy to miss:

- **The key handler looks only at `moved`.** It never tests `running`. A key pressed before the first tick is ignored because `moved` starts false.
- **The first key after a tick is acted on.** Later keys are ignored until the next tick. Any key closes the gate, including one with no heading.
- **A restart does not end the tick.** The wall test and the food test still look at the moved segment. A self collision on the food cell therefore leaves the restarted snake with two segments, `[(0,0), old last segment]` (`SelfCollisionRestarts`). In a well-formed state the restart cannot happen twice (`NoDoubleRestart`).
- **Food may be placed under the snake.** Segments can then overlap after a tick with no collision (`FoodUnderLastSegmentOverlaps`). Segments stay on different cells only when the food is not under the snake (`QuietTickKeepsDistinct`).

## Model

| member | source | states |
|---|---|---|
| SnakeRules.Align | SnakeMain.java:59-60 | the food coordinate is a non-negative multiple of 30, at most the draw and less than 30 below it |
| SnakeRules.FoodLandsOnFoodSpot | SnakeMain.java:119-120 | food placed from any valid draws is aligned, has x ≤ 540 and y ≤ 390, is inside the walls, and is never in the last column or the last row |
| SnakeRules.EveryFoodSpotReachable | SnakeMain.java:59-60 | every aligned cell with x ≤ 540 and y ≤ 390 is produced by some valid draws |
| SnakeRules.AdvanceIsOneSquare | SnakeMain.java:77-94 | the moved head is one square from the old head: UP y−30, DOWN y+30, LEFT x−30, RIGHT x+30, the other coordinate unchanged; the opposite heading undoes the move; alignment is kept |
| SnakeRules.Advance | SnakeMain.java:77-94 | the new cell differs from the old one; UP and DOWN keep x, LEFT and RIGHT keep y; y decreases exactly for UP and increases exactly for DOWN; x decreases exactly for LEFT and increases exactly for RIGHT |
| SnakeRules.HitsWall | SnakeMain.java:111 | the wall test passes exactly when the corner lies in [0, 600) × [0, 450); an aligned square that passes lies wholly inside the window |
| SnakeRules.HitsBody | SnakeMain.java:103-104 | the self test fires exactly when some segment other than the one at index 0 has the head's coordinates |
| SnakeRules.FoodAt | SnakeMain.java:119-120 | the food cell drawn from the two draws is aligned and inside the walls, and each coordinate lies within 30 below its draw |
| SnakeRules.LastCell | SnakeMain.java:71-74 | the pre-move corner (`xTail`, `yTail`) is the last segment: the snake is its other segments followed by it; for a single segment it is the head itself |
| SnakeRules.Step | SnakeMain.java:63-128 | the tick: a stopped game is left unchanged; a running one stays running with at least one segment and the gate open; the food changes only to the drawn cell. Its other behaviour is stated by the SnakeProperties lemmas |
| SnakeRules.Wanted | SnakeMain.java:167-183 | the key-to-heading map is one to one: S is UP, X is DOWN, Z is LEFT, C is RIGHT |
| SnakeRules.Stop | SnakeMain.java:144-148 | stopGame: not running, no segments, everything else unchanged |
| SnakeRules.Start | SnakeMain.java:151-158 | startGame: heading RIGHT, running, one segment at (0,0) appended to the existing ones, gate and food unchanged |
| SnakeRules.Restart | SnakeMain.java:138-141 | after a restart there is exactly one segment at (0,0), the heading is RIGHT and running is true, whatever the state before; gate and food are kept |
| SnakeRules.Slide | SnakeMain.java:68-100 | moving keeps the length, puts the new head first, and shifts every other segment one place back, dropping the old last one |
| SnakeRules.Turn | SnakeMain.java:167-184 | a key never yields the reverse of the current heading; an unmapped key keeps it; a mapped key yields its heading exactly when that is not the reverse, else the heading is kept |
| SnakeRules.Press | SnakeMain.java:163-186 | a key press closes the gate, never reverses the heading, changes nothing but heading and gate, and changes nothing at all when the gate is closed; with the gate open the new heading is `Turn` of the old heading and the key, so an unmapped key keeps the heading |
| SnakeProperties.StoppedTickChangesNothing | SnakeMain.java:64-65 | a tick while not running leaves the whole state unchanged |
| SnakeProperties.SelfCollisionMeans | SnakeMain.java:102-108 | the self test fires exactly when the new head lands on a segment other than the old last one |
| SnakeProperties.NoDoubleRestart | SnakeMain.java:103-113 | in a well-formed state a self collision never coincides with a wall collision |
| SnakeProperties.QuietTick | SnakeMain.java:68-100 | with no collision and no food: the head moves one square in the heading, the rest is the old snake without its last segment, the length, food and heading are kept, the gate opens |
| SnakeProperties.GrowingTick | SnakeMain.java:116-127 | when the head lands on the food without collision: the length grows by exactly one, the new last segment sits at the pre-move position of the moved segment, and the food moves to the drawn food spot |
| SnakeProperties.SelfCollisionRestarts | SnakeMain.java:103-127 | a self collision restarts (heading RIGHT, running); the snake is [(0,0)] with the food kept, or, when the collision is on the food, [(0,0), old last segment] with new food |
| SnakeProperties.WallCollisionRestarts | SnakeMain.java:111-113 | a head with x < 0, x ≥ 600, y < 0 or y ≥ 450 restarts the game to exactly one segment at (0,0) heading RIGHT, with the food kept |
| SnakeProperties.StepKeepsWellFormed | SnakeMain.java:63-128 | every tick keeps the invariant: running iff there are segments (so a running snake is never empty), food on a food spot, and every segment aligned and inside the walls |
| SnakeProperties.PressKeepsWellFormed | SnakeMain.java:163-186 | a key press keeps the same invariant |
| SnakeProperties.QuietTickKeepsDistinct | SnakeMain.java:98-127 | when the food is not under the snake, a tick with no collision keeps all segments on different cells |
| SnakeProperties.FoodUnderLastSegmentOverlaps | SnakeMain.java:116-127 | with the food under the last segment of a square snake, a tick with no collision produces two segments on one cell |
| SnakeProperties.GateStaysClosed | SnakeMain.java:163-165 | after one handled key, a second key before the next tick changes nothing |
| SnakeProperties.OnlyFirstKeyCounts | SnakeMain.java:163-186 | any run of keys between two ticks has the effect of its first key alone |
| SnakeProperties.TickOpensGate | SnakeMain.java:96 | a tick of a running game sets the gate open |
| SnakeProperties.FirstKeyDecides | SnakeMain.java:163-185 | with the gate open, the heading after several keys is the first key's heading, unless that reverses the current one; the gate ends closed |
| SnakeMain.CollidesWithBody | SnakeMain.java:103-108 | the loop reports a hit exactly when some segment other than the head at index 0 is on the head's cell |
| SnakeMain.SnakeGame.constructor | SnakeMain.java:35-60 | the initial state: heading RIGHT, gate closed, not running, no segments, food placed from the draws; the invariant holds |
| SnakeMain.SnakeGame.StopGame | SnakeMain.java:144-148 | the fields become `Stop` of the old state; the invariant is kept |
| SnakeMain.SnakeGame.StartGame | SnakeMain.java:151-158 | the fields become `Start` of the old state; the invariant is kept |
| SnakeMain.SnakeGame.RestartGame | SnakeMain.java:138-141 | the fields become `Restart` of the old state |
| SnakeMain.SnakeGame.Tick | SnakeMain.java:63-128 | the in-place tick (remove last, move, reinsert at 0, collision loop, wall test, food test) leaves the fields equal to `Step` of the old state and keeps the invariant |
| SnakeMain.SnakeGame.KeyPressed | SnakeMain.java:163-186 | the in-place key handler leaves the fields equal to `Press` of the old state and keeps the invariant |
| SnakeMain.Launch | SnakeMain.java:161-191 | after the content is built and the game started: one segment at (0,0), heading RIGHT, running, gate closed, food from the draws |
| Players.Player.constructor | Player.java:16-21 | stores exactly the given name, spins, score and strikes |
| Players.Player.Named | Player.java:25-30 | stores the name and sets spins, score and strikes to 0 |
| Players.Player.Copy | Player.java:34-39 | the new player's four fields equal those of the source player |
| Players.Player.GetName | Player.java:43-46 | returns the current name; the player is not modified |
| Players.Player.GetSpins | Player.java:50-53 | returns the current spin count; the player is not modified |
| Players.Player.GetScore | Player.java:58-61 | returns the current score; the player is not modified |
| Players.Player.GetStrikes | Player.java:66-69 | returns the current strike count; the player is not modified |
| Players.Player.SetName | Player.java:74-76 | sets the name; the other three fields are unchanged |
| Players.Player.SetSpins | Player.java:82-84 | sets the spin count; the other three fields are unchanged |
| Players.Player.SetScore | Player.java:90-92 | sets the score; the other three fields are unchanged |
| Players.Player.SetStrikes | Player.java:98-100 | sets the strike count; the other three fields are unchanged |
| Players.ScoreReadsBack | Player.java:90-92 | getScore after setScore(v) returns v, and the other fields are unchanged |
| Players.CopyIsIndependent | Player.java:34-39 | a copy is a fresh object: changing its score leaves the original's unchanged |

## Left out

- JavaFX plumbing (`Application`, `Stage`, `Scene`, `Pane`, `Group`, rectangle fill and size, `createContent`'s layout, `main`/`launch`): it is rendering, not game logic. Segment nodes are modelled as plain cells. The tick's identity test `rect != tail` is modelled as "index other than 0", because the moved node is always at index 0 after it is reinserted.
- `Timeline`: its play/stop calls and the 0.3 s cadence are scheduling done by the framework. A tick is a call of `Tick`.
- `Math.random()`: a nondeterministic foreign call. Its truncated result is a caller-supplied draw, constrained to `[0, W − 30)` for x and `[0, H − 30)` for y.
- `translateX/Y`: these are doubles in the source, modelled as `int`. Every value they take is an integer multiple of 30, so the comparisons are exact.
- Key events: the `KeyCode` values other than S, X, Z and C are folded into one `Other` key.
- Concurrency: the timer callback and the key handler are assumed to run on one thread, one at a time, as JavaFX runs them.
- Null references in `Player`: a null name and a null player to copy are not modelled. The model's `string` and `Player` parameters cannot be null. In Java, a null name is stored, and copying a null player throws a NullPointerException.
