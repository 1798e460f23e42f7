# Hungry Cat: a verified model of the game simulation

Hungry Cat is a browser game. A cat moves left and right along the bottom of an
800 × 450 logical view and catches falling drops:
- a fish scores 1 point and a gold drop scores 3;
- catching a water drop ends the game.

This project models the simulation at the heart of `hungrycat/game.js` and proves
properties of it. The simulation covers:
- the `world` record with its phase flags, score, difficulty progression and timers;
- the cat and its steering;
- the spawning of drops;
- the per-frame `update`, including the backwards move-and-collide loop that splices
  drops out of the array.

Modules:

- `Geometry` (`geometry.dfy`): the view size, `rectsIntersect` and `clamp`.
- `Difficulty` (`difficulty.dfy`): how `updateScore` derives the fall speed and the
  spawn interval from the score.
- `Drops` (`drops.dfy`): the drop kinds and how `spawnDrop` chooses and builds a drop.
  It also holds the fall step and the fate of a moved drop against the cat.
  - `SweepDrops` is the functional specification of the backwards loop: it handles
    `ds[1..]` before `ds[0]`, and stops at a caught water drop.
  - `Survivors` and `Points` are a front-to-back reference without the early stop.
  - Theorems connect the two.
- `CatMotion` (`cat.dfy`): the cat, the `inputs` and `tilt` records, the desired
  direction, bounded acceleration, friction and the clamped move.
- `Rules` (`rules.dfy`): the `world` record as a value, and the effects of
  `updateScore`, `endGame` and `resetGame` as functions on it.
  - It also holds the slow-motion countdown of a frame outside the Playing phase.
  - `PlayStep` gives one played frame as a function on the whole frame (world, cat
    and drops), with its theorems.
- `Session` (`session.dfy`): the class `Game`. Its fields `world`, `cat`, `inputs`,
  `tilt` and `drops` are updated in place by one method per source function.
  - `ResetGame`, `EndGame`, `UpdateScore`, `Update`, `Tick` and `MoveDrops` are proved
    against the matching function in `Rules` (`FreshWorld`, `Ended`, `Scored`,
    `Countdown` and `PlayStep`, `Clocked` and `Spawned`, `SweepDrops`).
  - `SpawnDrop` is proved against `Drops.NewDrop`. `SetInput`, `EnableTilt` and
    `OnTilt` state their new input or tilt record outright.
  - Every state-changing method keeps the class invariant `Valid()`.
  - The drop loop is a `for … downto` loop that keeps the source's `continue`, `break`
    and splicing, with invariants tying it to `SweepDrops`.

Positions, velocities and times are exact `real`s. Score, best score, speed and spawn
interval are `int`s.

## Model

| member | source | states |
|---|---|---|
| Geometry.IntersectIffSharedInterior | hungrycat/game.js:181-188 | for rectangles of positive size, the test holds exactly when some point lies strictly inside both |
| Geometry.IntersectSymmetric | hungrycat/game.js:181-188 | the overlap test does not depend on argument order |
| Geometry.TouchingDoesNotIntersect | hungrycat/game.js:181-188 | rectangles that only touch along an edge, or are apart on one axis, do not intersect |
| Geometry.Clamp | hungrycat/game.js:190 | with ordered bounds the result lies within them, and a value already within them is returned unchanged |
| Geometry.ClampOutside | hungrycat/game.js:190 | below the range gives the lower bound, above it gives the upper bound, and crossed bounds give the lower bound |
| Difficulty.SpeedFor | hungrycat/game.js:151-153 | speed is at most 540; it is 140 + 8·score up to score 50 and 540 from then on |
| Difficulty.IntervalFor | hungrycat/game.js:152-154 | interval is at least 360; it is 950 − 12·score up to score 49 and 360 from 50 on |
| Difficulty.ProgressionMonotone | hungrycat/game.js:146-155 | a higher score never gives a lower speed or a longer interval |
| Drops.Classify | hungrycat/game.js:158-162 | gold exactly when the roll is above 0.82, water exactly when below 0.22, fish exactly in between |
| Drops.NewDrop | hungrycat/game.js:164-177 | the kind is the classified roll; the drop is square; it starts just above the view (y = −height); its size is base to base + 12 (44 for water, 48 otherwise); x is within the 24-pixel inset; spin is in [−0.4, 0.4) |
| Drops.NewDropMotion | hungrycat/game.js:174-176 | the starting angle is in [−π/2, π/2); the fall speed is between 0.9 and 1.15 times the current speed |
| Drops.ResolveCases | hungrycat/game.js:242-270 | a moved drop splashes only if it is caught water; it is eaten (for its reward, 1 or 3) only if caught and not water; it falls out only if uncaught and below the off-screen line; a kept drop is on screen |
| Drops.SweepDrops | hungrycat/game.js:234-271 | the backwards loop never yields more drops than it was given |
| Drops.SplashedIffCaughtWater | hungrycat/game.js:242-249 | the loop ends the game exactly when some moved drop is a water drop the cat catches |
| Drops.SweepOnScreen | hungrycat/game.js:267-270 | with no water catch every kept drop is at or above the off-screen line; when the drops start on screen and the cat's box ends above the off-screen line, this holds after a water catch too |
| Drops.Survivors | hungrycat/game.js:234-271 | the reference list of kept drops is no longer than its input and lies on screen |
| Drops.SweepWithoutSplash | hungrycat/game.js:234-271 | without a water catch the backwards loop keeps exactly the reference survivors, in original order, and scores exactly the reference points |
| Drops.SweepStopsAtLastSplash | hungrycat/game.js:243-249 | when drop j is the last caught water drop, the drops before j are untouched, drop j stays moved in place, and only the drops after j are resolved and scored |
| Drops.SweepSplashInSuffix | hungrycat/game.js:248-249 | after the break, the prefix the loop never reached is kept as it was |
| Drops.CaughtDropEaten | hungrycat/game.js:250-264 | a caught fish adds exactly 1 and a caught gold exactly 3; exactly that drop is removed and its neighbours are unaffected |
| Drops.MissedDropKept | hungrycat/game.js:267-270 | a missed drop scores nothing; it is kept (moved) unless it is below the off-screen line |
| CatMotion.Direction | hungrycat/game.js:211-216 | the direction lies in [−1, 1]; without tilt it is right minus left; with tilt and balanced keys it is the clamped tilt / 30 |
| CatMotion.Accelerate | hungrycat/game.js:218-221 | velocity changes by at most 1800·dt and moves toward dir·380 without overshooting it |
| CatMotion.Friction | hungrycat/game.js:222-225 | friction never increases speed or flips its sign, and it applies only with no direction and a speed above 2 |
| CatMotion.MoveCat | hungrycat/game.js:218-231 | the new x is within [16, 688] and y is kept; speed is at most the accelerated speed; when x + v·dt is within the margins it is the new x |
| Rules.InitialWorld | hungrycat/game.js:72-81 | the page-load world is valid and idle, with score 0 and the stored best |
| Rules.FreshWorld | hungrycat/game.js:115-130 | the reset world is valid and playing, with score, time, spawn time and slow motion at 0, and the best score carried over |
| Rules.Scored | hungrycat/game.js:146-155 | the score moves by delta; speed and interval follow it within their caps; nothing else changes; validity is kept |
| Rules.ScoredCompose | hungrycat/game.js:146-155 | two updates compose into one by their sum; an update by 0 changes nothing; a gain never slows the fall or lengthens the interval |
| Rules.Ended | hungrycat/game.js:132-140 | the phase becomes GameOver with slow motion 0.45; best becomes max(old best, score); score, difficulty and clock are kept; validity is kept |
| Rules.Countdown | hungrycat/game.js:193-200 | only slow motion changes; it becomes max(0, slowmo − dt) and never goes below 0 |
| Rules.Spawned | hungrycat/game.js:202-208 | at most one drop is appended, only when the interval has elapsed; it is the spawned drop at the current speed; earlier drops are kept; being on screen is kept |
| Rules.PlayStepValid | hungrycat/game.js:192-271 | a played frame keeps the state valid (cat within the margins, every drop on screen); it advances time by dt; it never lowers score or best; the cat moves as MoveCat says; the phase is never Idle afterwards |
| Rules.PlayStepPhase | hungrycat/game.js:242-249 | a played frame ends the game exactly when some pending moved drop is water caught by the moved cat, and otherwise stays Playing |
| Rules.PlayStepWithoutSplash | hungrycat/game.js:234-271 | with no water catch the drops left are the reference survivors; score rises by the reference points; best is unchanged |
| Rules.PlayStepWithSplash | hungrycat/game.js:242-249 | with drop j the last caught water drop, earlier drops are untouched and only later drops are scored; the game ends with best raised to the final score |
| Session.Game.constructor | hungrycat/game.js:72-104 | the page-load state is valid and idle, with the cat centred and at rest, no drops, no keys held and tilt off |
| Session.Game.ResetGame | hungrycat/game.js:115-130 | from any valid state, the world is the fresh world (only best carried over), the cat is at (400, 354) at rest, and there are no drops |
| Session.Game.EndGame | hungrycat/game.js:132-144 | the world becomes `Ended` of the old world; the class invariant is kept |
| Session.Game.UpdateScore | hungrycat/game.js:146-155 | the world becomes `Scored` of the old world by delta; the class invariant is kept |
| Session.Game.SpawnDrop | hungrycat/game.js:157-179 | exactly one new drop, built from the rolls at the current speed, is appended; the class invariant is kept |
| Session.Game.SetInput | hungrycat/game.js:436-439 | "left" and "right" set their key; any other name changes nothing; the class invariant is kept |
| Session.Game.EnableTilt | hungrycat/game.js:504-508 | tilt becomes active and its angle is kept; the class invariant is kept |
| Session.Game.OnTilt | hungrycat/game.js:513-517 | the stored angle is the reading clamped to [−45, 45], unchanged when already within it; the class invariant is kept |
| Session.Game.Update | hungrycat/game.js:192-271 | validity is kept; outside Playing the world is `Countdown` and nothing else changes; while Playing, the new (world, cat, drops) is `PlayStep` of the old |
| Session.Game.Tick | hungrycat/game.js:202-208 | the world is `Clocked` and the drops are `Spawned` |
| Session.Game.MoveDrops | hungrycat/game.js:234-271 | the in-place backwards loop leaves exactly the kept drops of `SweepDrops` over the cat's box; the world is scored by the points gained and ended if a water drop was caught |

## Left out

- Rendering, layout and UI are not modelled: canvas drawing, resizing, the overlay and
  score elements, the share button and the mute toggle.
- Audio and haptics are not modelled. They are browser calls with no effect on game
  state.
- Persisting the high score to `localStorage` is external I/O. The stored best enters
  as the constructor's `storedBest`, and writing it back is not modelled.
- Particles (`spawnBurst`, `spawnSplash` and the particle loop) are cosmetic and never
  feed back into game state.
- `Math.random` is not modelled. The six values one spawn draws come in as a `Rolls`
  value, each in [0, 1).
- The friction factor `Math.pow(0.0001, dt)` is floating-point exponentiation. It
  enters `Update` as a parameter `friction` in (0, 1].
- The `requestAnimationFrame` loop is scheduling glue and is not modelled. That covers
  its `dt` clamp and the quarter-speed slow motion; `Update` only requires
  0 ≤ dt ≤ 0.033.
- The tilt permission request and the event-listener wiring are not modelled.
  `EnableTilt` is the outcome when orientation events are available.
- A non-numeric `gamma` reading, which `onTilt` ignores, is not modelled: `OnTilt`
  takes a number.
- JavaScript numbers are modelled as exact reals and unbounded integers. Rounding and
  overflow are not modelled.
- `Math.PI` is the real 3.141592653589793. It only feeds the cosmetic rotation.
- Session.Game.MoveDrops runs the loop on a local copy of the drop list and stores it
  back at the end. This matches the source's in-place `splice` on the shared array,
  because nothing the loop calls reads the drop list.
- The cat's `width`, `height`, `maxSpeed` and `accel` never change, so they are
  constants, not fields of `Cat`.
