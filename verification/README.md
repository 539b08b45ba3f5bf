# Snake game engine in Dafny

A model of the game-state engine of a single-file Swing snake game
(`SnakeGame.java`). The snake has a head and an ordered body, moves one cell per
timer tick, grows by eating food, and can pick up power-ups: a speed boost or a
score multiplier. The game ends when the head hits the body or leaves the board.
Each tick's delay comes from a difficulty level derived from the body length.

The whole game is one immutable `State.Game` record with one field per piece
of mutable state in the Java class. Every operation is a pure function from a
game to the next game:

| module | file | models |
|---|---|---|
| `Optional` | `optional.dfy` | a reference that may be `null` (the power-up tile) |
| `Grid` | `grid.dfy` | `Tile`, `collision`, `collisionWithSnake`, cell draws of `placeFood` |
| `Difficulty` | `difficulty.dfy` | `calculateDifficultyLevel` and the delay formula of `updateGameSpeed` |
| `State` | `state.dfy` | the game record, the random draws of one tick, `placeFood` |
| `Speed` | `speed.dfy` | `updateGameSpeed` with its `lastScore` cache |
| `PowerUps` | `power_ups.dfy` | `spawnPowerUp`, power-up consumption inside `move`, `updatePowerUp` |
| `Engine` | `engine.dfy` | `move`: food step, body shift, head advance, collision and bounds checks |
| `Session` | `session.dfy` | constructor defaults, `restart`, `actionPerformed` gating, `keyPressed` |
| `Invariants` | `invariants.dfy` | the invariant of every reachable state, over any sequence of ticks and key presses |
| `Quirks` | `quirks.dfy` | the source's odd behaviours, stated as lemmas rather than repaired |

The environment of the game becomes explicit parameters:

- The clock `System.currentTimeMillis()` becomes an argument `now`, one reading per tick.
- A draw `random.nextInt(n)` becomes a supplied natural number `raw`, reduced to
  `raw % n` (`Grid.NextInt`). Every value in `[0, n)` is produced by some draw,
  so the model admits exactly the outcomes the generator can give.
- One tick's draws are bundled in `State.Draws`: the food cell, the 10% spawn
  roll, the candidate cells of the spawn retry loop, and the kind boolean.
- The Swing timer is reduced to `currentDelay`, the delay it was last given.

Every operation that may draw a cell requires `ValidBoard`: width and height of
at least 25 pixels. `random.nextInt(width / 25)` throws for a smaller board. The
constructor calls `placeFood`, so no game object exists on such a board.

Some behaviours of the code are kept as they are and stated as lemmas:

- The bounds test is strict (`>`): a head whose pixel coordinate equals the
  board width or height survives, although nothing is ever drawn there; one
  cell further ends the game (`Quirks.BoundaryIsStrict`,
  `Quirks.BoundaryIsStrictVertically`).
- Food placement does not avoid the snake, so food can land under the head or
  the body (`Quirks.FoodCanLandOnSnake`).
- Consuming or ending a speed boost never changes the delay itself: the score
  cache is always current at those moments, so `updateGameSpeed` returns early
  (`Quirks.SpeedBoostDoesNotChangeDelay`). The boost shows only when food is
  eaten while the kind flag is set, which includes a speed power-up that is
  merely lying on the board. The halved delay then lasts until the next food,
  even after the effect has ended (`Quirks.EatingUnderKindFlagHalvesDelay`).
- A new spawn replaces a power-up already on the board and overwrites the kind
  flag (`Quirks.SpawnOverwritesPowerUp`).

## Model

| member | source | states |
|---|---|---|
| Grid.Collision | SnakeGame.java:318-320 | two tiles collide exactly when they are the same cell |
| Grid.NextInt | SnakeGame.java:259-260 | a draw of `nextInt(bound)` lies in `[0, bound)`, and any raw value below the bound is drawn as itself |
| Grid.DrawCell | SnakeGame.java:258-261 | a cell drawn per axis over the grid always lies inside the grid |
| Grid.DrawCellCovers | SnakeGame.java:258-261 | every grid cell can be drawn, so the supplied draws lose no behaviour |
| Grid.CollisionWithSnake | SnakeGame.java:234-240 | the head-then-body scan answers true exactly when the tile is the head or a body segment |
| Difficulty.DifficultyLevel | SnakeGame.java:197-201 | the level is in [1, 10]; below 10, level L covers scores 5(L-1) to 5L-1; level 10 is every score from 45 up |
| Difficulty.LevelDelay | SnakeGame.java:208 | the clamped delay is at least 50; on levels 1-10 the clamp never binds, giving 100 - 5(level-1) in [55, 100] |
| Difficulty.TickDelay | SnakeGame.java:207-211 | the computed delay is in [55, 100] without the boost flag and in [27, 50] with it |
| Difficulty.LevelMonotone | SnakeGame.java:197-201 | a longer body never has a lower level |
| Difficulty.DelayMonotone | SnakeGame.java:207-211 | a longer body never has a longer delay, with or without the flag |
| Difficulty.BoostHalvesDelay | SnakeGame.java:209-211 | with the flag the delay is the unboosted delay halved, rounding down |
| Difficulty.ScheduleExamples | SnakeGame.java:197-211 | sample levels (0→1, 5→2, 44→9, 45→10) and delays (level 1→100, level 5→80, level 10→55, boosted level 1→50) |
| State.PlaceFood | SnakeGame.java:258-261 | the new food cell lies in the grid, and nothing but the food changes |
| Speed.UpdateGameSpeed | SnakeGame.java:203-217 | afterwards the cache holds the score; on a cache hit nothing changes; on a miss the delay is the schedule's value for the score and flag; only cache and delay are written |
| Speed.UpdateGameSpeedIdempotent | SnakeGame.java:203-217 | a second call without a score change is a no-op |
| Speed.FlagChangeIgnoredByCache | SnakeGame.java:205 | once the cache is current, changing the boost flag does not reach the delay |
| PowerUps.FirstFreeIndex | SnakeGame.java:222-226 | the retry loop picks the first candidate that is neither food nor snake; every earlier candidate was blocked; no pick exactly when all are blocked |
| PowerUps.SpawnPowerUp | SnakeGame.java:219-232 | only the power-up, its spawn time and the kind flag can change; a failed roll or no free candidate changes nothing; otherwise the power-up is placed on an in-grid cell that is neither the food nor the snake, stamped with `now`, the kind flag set to the drawn kind, nothing else changed |
| PowerUps.EatPowerUp | SnakeGame.java:272-283 | without a consumable power-up under the head nothing changes; otherwise the effect starts at `now`, the cell is cleared, the multiplier becomes 2 only for the non-speed kind, and the speed kind changes the delay only on a cache miss |
| PowerUps.UpdatePowerUp | SnakeGame.java:242-256 | a power-up unconsumed for more than 10000 ms is removed with its kind flag; an effect older than 5000 ms ends with all flags cleared and the multiplier reset to 1; the delay changes only on a cache miss; the snake is untouched |
| PowerUps.EffectEndsStrictlyAfterDuration | SnakeGame.java:249-255 | an effect is still running 5000 ms after activation and has ended, multiplier back to 1, at 5001 ms |
| PowerUps.DespawnStrictlyAfterLifetime | SnakeGame.java:244-247 | an unconsumed power-up is still present 10000 ms after spawning and gone at 10001 ms |
| Engine.ShiftBody | SnakeGame.java:285-297 | the shifted body has the same length; segment 0 takes the old head and segment i the old segment i-1 |
| Engine.ShiftBodyInPlace | SnakeGame.java:285-297 | the tail-to-head in-place copy loop computes exactly that shift |
| Engine.Grow | SnakeGame.java:265-268 | eating appends the food cell to the body, redraws the food, sets the cache to the new score and re-derives the delay unless the cache already held it; nothing else changes |
| Engine.EatFood | SnakeGame.java:264-270 | off the food nothing changes; on it the body gains the food cell, the food is redrawn, the cache follows the new score and the delay is re-derived for it unless the cache already held that score, and any power-up change is a valid spawn; position, velocity, flags and effect are untouched |
| Engine.Advance | SnakeGame.java:285-313 | the head moves by the velocity, the body is shifted, and the game is over iff it was already, or the new head is on the body, or it is outside the board; nothing else changes |
| Engine.Move | SnakeGame.java:263-316 | new head = old head + velocity; segment 0 = old head and segment i = old segment i-1; the body grows by one exactly when the head started on the food; redrawn food is in the grid; game over iff already over, self-hit or out of bounds, so never cleared; velocity, pause and high score unchanged |
| Session.Init | SnakeGame.java:67-87 | the constructed game has head (5, 5), empty body, food in the grid, velocity (1, 0), delay 100, cache -1, no power-up, no effect, multiplier 1, high score 0 |
| Session.Restart | SnakeGame.java:322-355 | the high score becomes the maximum of the old high score and the body length; head, body, food, velocity, flags, cache, delay, power-up and multiplier return to their start values |
| Session.RestartIsFreshGame | SnakeGame.java:322-355 | a restarted game equals a freshly constructed one except for the high score and the two power-up timestamps |
| Session.ActionPerformed | SnakeGame.java:363-368 | a game that is over or paused is left unchanged by a tick; otherwise the tick moves it; a finished game stays finished |
| Session.Steer | SnakeGame.java:379-396 | for a unit velocity, an arrow key sets its heading exactly when that is not the reverse of the current velocity; the velocity stays a unit vector; nothing else changes |
| Session.KeyPressed | SnakeGame.java:371-398 | R restarts only a finished game; any other key leaves a finished game alone; P toggles the pause only in an unfinished game; arrows steer only while running; the high score never drops |
| Session.ReverseKeyIgnored | SnakeGame.java:388-391 | moving right and pressing left keeps the velocity (1, 0) |
| Session.PauseTwiceRestores | SnakeGame.java:376-378 | pressing P twice in an unfinished game restores the state |
| Session.PauseFreezesResumeAdvances | SnakeGame.java:363-366 | a paused game is unchanged by a tick; after P resumes it, a tick advances the head by the velocity |
| Session.RestartExample | SnakeGame.java:322-327 | R on a finished game with score 7 and high score 3 gives high score 7, empty body, neither paused nor over |
| Invariants.InitEstablishesInv | SnakeGame.java:67-87 | the constructed game satisfies the reachable-state invariant |
| Invariants.EatFoodKeepsInv | SnakeGame.java:264-270 | the food step keeps the cache and effect invariants, keeps the food in the grid, and adds one to the score exactly when eating |
| Invariants.EatPowerUpKeepsInv | SnakeGame.java:272-283 | consumption keeps the cache and effect invariants and, with the cache current, never changes the delay |
| Invariants.UpdatePowerUpKeepsInv | SnakeGame.java:242-256 | despawn and expiry keep the cache and effect invariants and never change the delay |
| Invariants.MoveKeepsInv | SnakeGame.java:263-316 | a tick keeps the invariant (unit velocity, food in grid, head off the body while running, score cache current or unset (-1) on an empty snake and current whenever a power-up is on the board or running, multiplier 2 exactly under a multiplier effect, delay in [27, 100]); only its food step can change the delay |
| Invariants.RestartKeepsInv | SnakeGame.java:322-355 | a restart keeps the invariant |
| Invariants.KeyPressedKeepsInv | SnakeGame.java:371-398 | every key press keeps the invariant |
| Invariants.Apply | SnakeGame.java:363-398 | a tick or key press keeps the board valid and never lowers the high score |
| Invariants.Run | SnakeGame.java:363-398 | any sequence of ticks and key presses keeps the board and never lowers the high score |
| Invariants.ApplyKeepsInv | SnakeGame.java:363-398 | every tick or key press keeps the invariant |
| Invariants.RunKeepsInv | SnakeGame.java:363-398 | every sequence of ticks and key presses keeps the invariant |
| Invariants.ReachableStatesSatisfyInv | SnakeGame.java:60-90 | every state reachable from construction satisfies the invariant; in particular the velocity is always one of the four unit vectors |
| Quirks.BoundaryIsStrict | SnakeGame.java:310-313 | the column whose pixel coordinate equals the board width is not out of bounds, though no food can be drawn there; one column further is |
| Quirks.BoundaryIsStrictVertically | SnakeGame.java:310-313 | the row whose pixel coordinate equals the board height is not out of bounds, though no food can be drawn there; one row further is |
| Quirks.HeadOnRightEdgeSurvives | SnakeGame.java:298-313 | a lone head stepping onto pixel x equal to the board width does not end the game |
| Quirks.HeadOnBottomEdgeSurvives | SnakeGame.java:298-313 | a lone head stepping onto pixel y equal to the board height does not end the game |
| Quirks.FoodCanLandOnSnake | SnakeGame.java:258-261 | some draw places the food on the snake's head |
| Quirks.KindFlagSetAtSpawn | SnakeGame.java:227-230 | spawning a speed-kind power-up sets `speedBoostActive` while no effect is running |
| Quirks.SpawnOverwritesPowerUp | SnakeGame.java:219-231 | a spawn replaces a power-up already on the board and overwrites the kind flag, whether or not an effect runs |
| Quirks.SpeedBoostDoesNotChangeDelay | SnakeGame.java:273-283 | in a reachable state a tick off the food leaves the delay unchanged, even when it consumes a speed boost or ends one |
| Quirks.EatingUnderKindFlagHalvesDelay | SnakeGame.java:203-217 | in a reachable state, eating while the kind flag is set leaves the tick with the halved delay for the new score, at most 50 |
| Quirks.MultiplierDoesNotAffectScore | SnakeGame.java:263-270 | the score after a tick is the same whatever the multiplier, and it grows by exactly one when eating |

## Left out

- Rendering (`paintComponent`, `draw`) and the text of `getPowerUpStatus`: they only draw and format, with no game logic.
- Background image loading and Swing wiring in the constructor: file and UI I/O. Only the initial field values are modelled.
- The Swing timer: `setDelay` becomes a write of `currentDelay`. Scheduling, event dispatch, `repaint` and the `isRunning`/`start` check in `restart` are left out. The timer is never stopped, so that check never fires.
- `keyTyped` and `keyReleased`: their bodies are empty.
- PowerUps.FirstFreeIndex: the Java retry loop draws until it finds a free cell. The model gets a finite list of candidates and spawns nothing if all are blocked. On a full board the Java loop would never end.
- Integer widths: coordinates, `head.x * tileSize` and the `long` timestamps are unbounded integers. In Java, `head.x * 25` could only overflow on a board more than about 2^31 pixels wide, because the head leaves the board by at most one cell before ticks stop.
- One clock reading per tick: the spawn stamp, the despawn test, the expiry test and the activation stamp each call `System.currentTimeMillis()` within one `move`, and all four read the same `now` here. The reads differ by far less than the 5000 ms and 10000 ms thresholds unless a single tick stalls for seconds, so a power-up that despawns in the tick that spawned it is not modelled.
- Boards narrower or shorter than one cell: `nextInt` throws on them and the constructor fails, so every operation that draws a cell requires `ValidBoard`.
