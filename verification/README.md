# Asteroids avoidance game — verified model of the game rules

The game in `index.js` is a small browser avoidance game. The player is a red square that the arrow keys steer across a canvas. A hundred grey enemy squares are spawned just outside the canvas and drift across it at constant speeds. Every three seconds, the enemies still inside the canvas are kept and a fresh hundred are added. Overlapping an enemy ends the run. The survival time in milliseconds is the score, shown as `MM:SS:mmm`, and the best score is kept in local storage.

This project models those rules in Dafny, with canvas drawing, timers, dialogs and storage access abstracted away:

- `rules.dfy` (`Rules`): the constants and `getRandom`. A `Math.random` result is a parameter in [0, 1).
- `digits.dfy` (`Digits`): `Number.prototype.toString(radix)` for non-negative integers, reading digits back, and upper-casing.
- `colour.dfy` (`Colour`): `toHex` and the grey enemy colour.
- `score.dfy` (`Score`): `formatScore`, plus a reader for its output that serves as its inverse.
- `components.dfy` (`Components`): the `Component` class, its constructor, `newPos`, `checkCollision`, `isInGameArea`, the player created by `createPlayer`, and its key handler.
- `spawner.dfy` (`Spawner`): the spawn-position test and rejection loop, `generateNewEnemy`, `generateEnemies` and `generateNewEnemies`.
- `game.dfy` (`Game`): the global game variables as one immutable `GameState`. `update`, `startGame`, `endGame`, `showMainMenuDialog`, the refresh interval and the key handler are functions from state to state.

Positions, sizes and speeds are exact `real`s. The random draws an operation consumes are explicit inputs, and so is the current time. The rejection loop in `generateNewEnemy` runs over a finite sequence of draw pairs. When every supplied pair is rejected, the result is `None`, meaning the loop would still be drawing. Every operation that spawns enemies therefore returns an `Option`.

Details of the code worth noting:
- Grey levels come from `Math.floor(getRandom(100, 220))`, so they lie in [100, 219].
- Enemy widths lie in [2, 10).
- Enemy speed magnitudes lie in [0.1, 2).
- The player starts at rest, with its top-left corner at the canvas centre.
- `startGame` does not reset `gameOver`.

## Model

| member | source | states |
|---|---|---|
| Rules.GetRandom | index.js:29 | `getRandom(a, b)` maps a unit draw into [a, b), half-open when a < b, and returns a for a zero draw |
| Digits.ToDigits | index.js:34 | `toString(radix)` of a non-negative integer: only digits of the radix, a single digit exactly below the radix, no leading zero except for 0 itself |
| Digits.ValueOfToDigits | index.js:34 | reading the digits `toString(radix)` writes back in that radix gives the original number |
| Colour.ToHex | index.js:32-42 | `toHex` always returns an even number of characters, at least two, all upper-case hex digits |
| Colour.ToHexSpec | index.js:32-42 | the digits `toHex` returns parse back in base 16 to the input |
| Colour.ToHexTwoDigits | index.js:32-42 | every value from 16 to 255 becomes exactly two hex digits, so no padding is added |
| Colour.GreyLevel | index.js:47 | the floored `getRandom(100, 220)` grey level lies in [100, 219] |
| Colour.GreyColour | index.js:48 | the colour starts with `#`; for a channel value from 16 to 255 it is `#` followed by three identical upper-case hex pairs, 7 characters in all |
| Colour.GreyColourShape | index.js:47-48 | for every grey level the enemy code can draw, the colour is such a grey and each of its three pairs reads back as the level |
| Score.PadTwo | index.js:149-150 | the minutes and seconds padding yields only digits that read back as the number, at least two characters, exactly two below 100, and no leading zero from 10 on |
| Score.PadThree | index.js:151-154 | the three-digit `toLocaleString` padding yields only digits that read back as the number, at least three characters, exactly three below 1000 |
| Score.FormatScore | index.js:142-158 | the output has a colon 7 and 4 characters from the end and digits everywhere else: exactly two separators, a 2-digit seconds field, a 3-digit milliseconds field and a minutes field of at least 2 digits |
| Score.FormatScoreFields | index.js:144-146 | the three fields of the output decompose the score exactly: minutes * 60000 + seconds * 1000 + milliseconds == score, with seconds < 60 and milliseconds < 1000 |
| Score.FormatScoreMinutes | index.js:144-149 | the minutes field is the padded minute count: two characters below ten minutes, and no padding zero from ten minutes on |
| Score.ParseFormatScore | index.js:142-158 | the independent reader `ParseScore` recovers every score from its formatted text |
| Score.FormatScoreInjective | index.js:142-158 | different scores never produce the same text |
| Score.FormatScoreExampleMinute | index.js:142-158 | 65432 ms is shown as `01:05:432` |
| Score.FormatScoreExampleUnderSecond | index.js:142-158 | 999 ms is shown as `00:00:999` |
| Score.FormatScoreExampleHour | index.js:142-158 | 3600000 ms is shown as `60:00:000`; minutes are not wrapped into hours |
| Components.Direction | index.js:210-211 | the random direction is +1 or -1, and +1 exactly for draws above one half |
| Components.NewComponent | index.js:195-215 | the constructor keeps size, colour, position and role; a player starts at rest; an enemy gets a speed on each axis whose magnitude lies in [0.1, 2) |
| Components.NewPos | index.js:229-233 | one step changes only the position, by exactly the speed on each axis |
| Components.AdvanceDisplacement | index.js:229-233 | after k calls of `newPos` a component has moved by k times its speed on each axis, and nothing else has changed |
| Components.CheckCollision | index.js:235-243 | for boxes with positive size, a collision is exactly an overlap of the two intervals on each axis: the larger left (top) edge lies below the smaller right (bottom) edge |
| Components.CheckCollisionSymmetric | index.js:235-243 | `a.checkCollision(b)` equals `b.checkCollision(a)` |
| Components.CollisionIffSharedInterior | index.js:235-243 | for boxes with positive size, a collision happens exactly when the two open boxes share a point |
| Components.TouchingDoesNotCollide | index.js:235-243 | boxes that only share an edge or a corner do not collide, because every comparison is strict |
| Components.CollisionKeptUnderCommonMove | index.js:229-243 | two components with equal speeds keep their collision status across a `newPos` step |
| Components.IsInGameArea | index.js:245-253 | for a box of non-negative size, it lies in the game area exactly when its top-left and bottom-right corners are both on the canvas |
| Components.InGameAreaIffBoxOnCanvas | index.js:245-253 | `isInGameArea` holds exactly when every point of the closed box lies in [0, W] x [0, H] |
| Components.NewPlayer | index.js:92-97 | the player is red, 10 by 10, and at rest, with its top-left corner at the canvas centre |
| Components.OnKeyDown | index.js:100-119 | an arrow key sets exactly one axis to a speed of magnitude 2 and the other to 0: up gives a negative y speed, down a positive y speed, left a negative x speed, right a positive x speed; any other key leaves the player unchanged; position and size are never touched |
| Components.LastArrowKeyWins | index.js:100-119 | after two key presses, the speed is the one set by the last arrow key alone |
| Components.ArrowKeyDirections | index.js:100-119 | after each arrow key, the next step moves the player 2 units in that key's direction (up means smaller y) and not at all on the other axis |
| Spawner.SpawnAccepted | index.js:61 | a position is accepted exactly when, on each axis, it lies outside the band from -10 to the canvas side; an accepted point is off the canvas |
| Spawner.AcceptedSpawnNotInGameArea | index.js:57-62 | a position the spawn test accepts is outside the game area for every box of non-negative size |
| Spawner.AcceptedSpawnClearOfGameArea | index.js:61 | an enemy no wider than the maximum, at an accepted position, cannot collide with any component inside the game area, including the player |
| Spawner.Candidate | index.js:58-59 | each candidate lies within SPAWN_OFFSET of the canvas, half-open at the far edge |
| Spawner.FirstAccepted | index.js:57-62 | finds the first draw the spawn test accepts, with every earlier draw rejected; `None` exactly when every draw is rejected |
| Spawner.SpawnPosition | index.js:57-62 | the loop only ever settles on a position the spawn test accepts |
| Spawner.FindSpawnPosition | index.js:54-62 | the `while` rejection loop returns the candidate of the first accepted draw, or `None` when every draw is rejected |
| Spawner.LowDrawsAccepted | index.js:58-61 | on every canvas, draws below 90 / (side + 200) on both axes are accepted, so the loop can always stop |
| Spawner.GenerateNewEnemySpec | index.js:45-66 | an enemy is created exactly when some position draw is accepted; it is then a non-player grey square of width in [2, 10), at an accepted position, outside the game area, with enemy speeds |
| Spawner.SpawnAll | index.js:72-74 | the generation loop produces one enemy per draw record, in order; it fails exactly when one of the enemies finds no position |
| Spawner.GenerateEnemies | index.js:69-75 | the existing enemies are kept in order as a prefix, followed by exactly NUM_OF_ENEMIES fresh enemies |
| Spawner.KeepInGameArea | index.js:80-85 | the kept enemies all lie in the game area, all come from the input, and include every input enemy that lies in the game area |
| Spawner.KeepInGameAreaAtIndices | index.js:80-85 | the kept enemies are exactly the input enemies at the in-area positions, taken in that order |
| Spawner.InGameAreaIndicesIncreasing | index.js:80-85 | the in-area positions are strictly increasing, so the original order is preserved |
| Spawner.InGameAreaIndicesExact | index.js:80-85 | a position is selected exactly when the enemy there satisfies `isInGameArea` |
| Spawner.KeepAllInGameArea | index.js:80-85 | when every enemy lies in the game area, the filter returns the list unchanged |
| Spawner.GenerateNewEnemies | index.js:78-89 | the refresh returns the in-area enemies in order, followed by NUM_OF_ENEMIES fresh ones; it holds at least NUM_OF_ENEMIES enemies and is never capped |
| Spawner.RefreshInAreaExactlyRetained | index.js:78-89 | after a refresh, an enemy lies in the game area exactly when it is one of the retained ones |
| Spawner.RefreshGrowsWhenAllInArea | index.js:78-89 | when every enemy lies in the game area, all of them stay and the collection grows by a full batch |
| Game.DetectCollision | index.js:325-332 | the collision loop, which breaks at the first hit, reports a collision exactly when the player overlaps some enemy |
| Game.AdvanceAll | index.js:342-343 | every enemy takes exactly one `newPos` step, and the list keeps its length and order |
| Game.EndGame | index.js:303-320 | `endGame` sets `gameOver` and moves nothing; the best score becomes the score when none is cached or stored, and the larger of the two otherwise; storage is written only when the score beats the previous best |
| Game.EndGameBestNeverDecreases | index.js:311-317 | after `endGame`, the best score is at least the score, never below the previous best, and equal to their maximum |
| Game.Update | index.js:323-351 | a tick ends the game exactly when it was over or the running player overlaps an enemy, and then equals `endGame`; an ended game moves nothing; otherwise every enemy, and the running player, take one `newPos` step; the canvas, the mode and the start time never change |
| Game.UpdateInMenu | index.js:323-351 | in menu mode a tick never ends the game, never touches the best scores, and never moves the player |
| Game.UpdateOnCollision | index.js:323-351 | in a running game, a collision with any enemy ends the game on that tick, and no entity moves |
| Game.UpdateAdvances | index.js:334-350 | without a collision, every enemy advances exactly once and the player advances exactly when the game is running; nothing else changes |
| Game.UpdatePhase | index.js:323-351 | a tick keeps the menu in the menu, takes a running game to running or ended, and leaves an ended game ended |
| Game.ImmediateCollisionScoresZero | index.js:303-332 | a collision on the first tick at the start time scores 0; with no best score recorded, 0 becomes the best and is stored |
| Game.ShowMainMenu | index.js:161-183 | back in the menu, with `gameOver` false and NUM_OF_ENEMIES freshly spawned enemies; the player variable, the canvas, the start time and both best scores are kept |
| Game.Load | index.js:354 | the page starts in the menu, with no player, a valid state, and the stored best score untouched |
| Game.GenerateEnemiesIsFreshBatch | index.js:69-75 | every enemy of a batch generated from none is a freshly spawned enemy |
| Game.StartGame | index.js:281-300 | leaving the menu creates the `createPlayer` player and NUM_OF_ENEMIES freshly spawned enemies, and records the start time; the canvas, `gameOver` and both best scores are kept |
| Game.StartFromMenuRuns | index.js:281-300 | a game started from the menu is in the running phase |
| Game.Refresh | index.js:295 | the spawn interval's refresh changes only the enemies, and leaves at least NUM_OF_ENEMIES of them |
| Game.KeyDown | index.js:100-119 | a key press changes only the player, and only once a player exists |
| Game.FreshBatchHasNoPlayer | index.js:65 | no enemy in a fresh batch is flagged as the player |
| Game.TransitionsKeepInv | index.js:161-351 | every transition keeps the state invariant: a player exists outside the menu, the menu is never over, only the player is flagged as player, and a cached best score equals the stored one |

## Left out

- Drawing: `Component.update` and `GameArea` (`start`, `stop`, `clear`, the canvas context) only render, so they are not modelled.
- Timers: `setInterval`/`clearInterval`, `FPS` and `SPAWN_FREQUENCY` are not modelled. `Game.Update` and `Game.Refresh` are the two callbacks. When they fire, and the fact that ticks stop after `endGame`, are left to the caller.
- Dialogs and the DOM: `startGameDialog`, `endGameDialog` and `showEndGameDialog` are left out. The texts that dialog shows are `Score.FormatScore` of the score and of the best score.
- Local storage: `loadBestScore` and `setBestScore`, with their `JSON.stringify`/`parseInt`, are modelled as the `storedBestScore: Option<int>` field. A stored value that does not parse as an integer is not modelled.
- `Math.random` and `new Date().getTime()` are parameters: unit draws in [0, 1) and an integer time.
- The rejection loop runs over a finite draw sequence. Its termination is not modelled. `Spawner.LowDrawsAccepted` shows only that accepting draws exist on every canvas.
- JavaScript numbers are modelled as exact `real`/`int` values, without IEEE-754 rounding.
- `toLocaleString` is modelled as left zero-padding to three digits, without locale data.
- Score.FormatScore: scores are modelled as non-negative only. A negative score, from the clock going back between `startGame` and `endGame`, would be shown with minus signs and JavaScript's negative zero, and that is not modelled.
- Colour.ToHex: inputs are modelled as non-negative only, since the one call site passes a grey level in [100, 219]. A negative input would gain a minus sign.
- JavaScript's `toUpperCase` is modelled for ASCII letters only, which covers every hex digit.
