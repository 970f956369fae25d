# Bunny Hop — a verified model of the game simulation

Bunny Hop is a browser arcade game. A bunny at the bottom of the canvas is steered left
and right with the arrow keys. Carrots and rocks fall from the top. A carrot that touches
the bunny scores ten points. A rock that touches it ends the run. Space starts a run.
Every animation frame runs one `update` tick:

1. move and clamp the bunny;
2. count the frame and spawn an item every 60th frame;
3. age the particle effects;
4. run the item loop.

The item loop goes from the last item down. It moves each item, tests it against the
bunny's box raised or lowered by a hop offset, and handles a collision before it culls an
item that has left the canvas.

The model follows `script.js` in layers:

- `Entities` (entities.dfy): the game's constants and the `Item` and `Particle` values.
  It also holds the bunny's boundary clamp, the box-overlap test and the high-score maximum.
- `Particles` (particles.dfy): a burst of eight particles (`Burst`) and one update of the
  whole particle list (`Advanced`). Lemmas cover order, membership, decay and lifetime.
- `Items` (items.dfy): the item the spawner creates, the spawn cadence, and one iteration
  of the item loop (`Handle`). `Sweep` runs the loop from the last index down, as the
  source does. Reference definitions (`Survivors`, `Collected`, `HitCount`, `Bursts`) say
  what a whole loop keeps, scores, hits and emits, and lemmas connect the two.
- `Rules` (rules.dfy): the whole game state as a value (`World`). It defines what each
  operation does to it: a tick (`Tick`), an animation frame (`Frame`), `startGame`
  (`Restart`), `gameOver` (`Finish`) and the two key handlers (`Press`, `Release`).
  Lemmas cover single ticks and whole runs (`Ticks`, one tick per `Input`).
- `BunnyHop` (game.dfy): the class `Game`, whose fields are the source's module-level
  state. Its methods change those fields in place, as the source does. The particle
  list and the item list are spliced inside index-decrementing loops. Each method is
  proved equal to a reference function of the lower modules: the whole-state ones to
  `Rules`, the loop bodies and loops to `Particles` and `Items`.

The source's nondeterminism enters through parameters:

- `hop` is the value of `Math.sin(frameCount * 0.2) * 3` for the tick. It lies in [-3, 3].
- `rand` lists, in order, the values `Math.random()` returns during the tick. Each lies
  in [0, 1).
  - A spawning tick takes draw 0 for the item's type and draw 1 for its x.
  - Each burst then takes sixteen draws, vx then vy for each of its eight particles.
  - Bursts happen in loop order, highest index first.

The canvas size comes from the page markup, not from `script.js`. The model fixes it at
480 × 640.

Three behaviours of `script.js` are easy to misread; the model follows the code:

- A rock hit calls `gameOver` and then `continue`s; it does not leave the loop. Lower-index
  items are still moved, and a carrot that also touches the bunny is still collected in
  the same tick. So the final score can exceed the high score that `gameOver` already took
  (`Items.RockThenCarrotSameTick`).
- The item spawned on a tick falls once in that same tick. Its first observed position is
  y = -32 + speed, not -32 (`Rules.SpawnedItemFallsAtOnce`).
- `frameCount` is never reset; `startGame` keeps it (`Rules.Restart`).

## Model

| member | source | states |
|---|---|---|
| Entities.Clamp | script.js:153-155 | the boundary result is always on the canvas, is unchanged when already on it, and is 0 or W−32 when past the left or right edge |
| Entities.Best | script.js:135-138 | the new high score is at least both the old high score and the score, and is one of the two |
| Items.NewItem | script.js:166-176 | a new item sits at y = −32 with size 32×32; it is a carrot iff the type draw exceeds 0.3; its speed is 3 + score/100; a draw in [0,1) gives x in [0, W−32) |
| Items.Spawned | script.js:165-177 | the spawn step appends one item iff the new frame count is a multiple of 60, keeps the old list as a prefix, and the new item is built from draws 0 and 1 |
| Items.Survivors | script.js:182-209 | the kept items are at most the originals; every kept item is a fallen original that stays, and every original that stays is kept fallen |
| Items.CarrotCollision | script.js:192-197 | a carrot that meets the bunny adds 10 points, leaves the list, appends one orange burst at its centre, uses 16 draws, and leaves the run state alone |
| Items.RockCollision | script.js:198-202 | a rock that meets the bunny leaves the score alone, stays in the list fallen, appends one red burst at the bunny's centre, stops the run and sets the high score to the maximum |
| Items.MissedItem | script.js:205-208 | an item that misses is removed exactly when its new y exceeds the canvas height; nothing else changes |
| Items.CollisionBeforeCulling | script.js:186-208 | an item that both meets the bunny and is below the canvas is handled as a collision, not culled |
| Items.SweepKept | script.js:182-209 | the reverse loop keeps exactly the reference survivors, in list order |
| Items.SweepScore | script.js:192-193 | the loop adds ten points per collected carrot and nothing else |
| Items.SweepOutcome | script.js:198-202 | the run ends iff some rock hits; the high score never drops, changes only on a hit, is then at least the score when the loop starts, and never exceeds the maximum of the old high score and the final score |
| Items.SweepHighScore | script.js:182-202 | on a hit the high score is exactly the maximum of the old high score and the score the loop has reached at the lowest-index rock that hits (`FirstHit`), the last one it meets: the start score plus ten per carrot above that rock |
| Items.FirstHitLowest | script.js:182-202 | on a list with a hit, `FirstHit` is the index of a hitting rock and no rock below it hits |
| Items.FirstHitAt | script.js:182-202 | a hitting rock with no hitting rock below it is `FirstHit`, so the index is unique |
| Items.LowestRockSetsHighScore | script.js:182-202 | with two rocks and a carrot between them all meeting the bunny, the high score is 10: the lower rock, met after the carrot, sets it |
| Items.BurstsContents | script.js:192-199 | every particle of the reference bursts has life 1.0 and is either red at the bunny's centre with some rock of the list hitting, or orange at the centre of a fallen carrot of the list that the bunny collects |
| Items.BurstsLength | script.js:192-201 | the reference bursts hold eight particles per collected carrot and per hitting rock |
| Items.SweepBursts | script.js:182-209 | the reverse loop appends exactly the reference bursts, highest index first, to the particles already present |
| Items.SweepCursor | script.js:81-82 | each collision takes sixteen random draws and nothing else in the loop draws |
| Items.SweepParticles | script.js:182-209 | existing particles are untouched, the loop appends exactly the reference bursts, eight per collision, and uses 16 draws per collision |
| Items.RockThenCarrotSameTick | script.js:198-202 | with a rock and a carrot both touching the bunny, the loop goes on past the rock: the carrot scores 10 after the high score stayed 0, and the rock is kept |
| Particles.Burst | script.js:76-87 | a burst has exactly 8 particles at (x, y) with life 1.0 and the given colour; with draws in [0,1) every velocity component lies in [−2, 2) |
| Particles.Advanced | script.js:89-98 | one update never grows the list, and every survivor has positive life |
| Particles.AdvancedAppend | script.js:89-98 | the update acts per particle and keeps survivors in relative order: it distributes over concatenation |
| Particles.AdvancedMembers | script.js:89-98 | a particle survives iff it is an aged original with positive life |
| Particles.AdvancedWhenNoneExpire | script.js:90-93 | when no life is about to run out, the list keeps its length and each particle is moved by its velocity and loses 0.05 life |
| Particles.AgedLife | script.js:93 | after n updates a particle's life is its start life minus n × 0.05 |
| Particles.FreshParticleLifetime | script.js:83-95 | a particle born with life 1.0 survives 19 updates and is removed by the 20th |
| Rules.Initial | script.js:36-56 | the page starts stopped, with score 0, frame count 0, the stored high score, no items, no particles, the bunny at W/2−16 (on the canvas) and no key held |
| Rules.Restart | script.js:109-117 | startGame changes nothing during a run; otherwise score 0, no items or particles, the bunny at W/2−16 and running, with the frame count, high score and keys kept |
| Rules.Finish | script.js:130-138 | gameOver stops the run and sets the high score to the maximum; nothing else changes |
| Rules.Press | script.js:61-70 | keydown marks the key held and no other key changes; Space starts a run when none is going, with score 0, no items or particles and the bunny at W/2−16; any other key changes nothing else |
| Rules.Release | script.js:72-74 | keyup marks the key not held; nothing else changes |
| Rules.Frame | script.js:229-231 | an animation frame of a stopped game changes nothing; a running one counts one frame and leaves the bunny on the canvas |
| Rules.TickMovesBunny | script.js:147-155 | the bunny moves by independent ±5 deltas for the held keys and is then clamped onto the canvas; the frame count goes up by one and the keys are kept |
| Rules.TickKeepsItems | script.js:165-209 | the items after a tick are the reference survivors of the spawned list; every kept item is an item of that list fallen once by its own speed, a new one included |
| Rules.TickScore | script.js:192-193 | a tick raises the score by ten per collected carrot and that is the only change, so a multiple of ten stays one |
| Rules.TickRunState | script.js:198-202 | the run stops in a tick iff a rock hits; the high score never drops, changes only on a hit, and is then at least the score at the start of the tick |
| Rules.TickParticles | script.js:179-202 | after a tick the particles are exactly the updated old ones followed by the reference bursts of the spawned list, 8 per collision |
| Rules.TickBurstsFromCollisions | script.js:192-201 | every particle a tick adds has life 1.0 and is either red at the bunny's centre with a rock of the spawned list hitting, or orange at the centre of a collected carrot |
| Rules.TickSpawns | script.js:165-177 | a tick appends exactly one item iff its new frame count is a multiple of 60, built from that tick's first two draws and the current score |
| Rules.SpawnedBy | script.js:165-177 | the items a tick adds to the list before its item loop number one on a spawning frame and none otherwise |
| Rules.SpawnsInClosedForm | script.js:165-166 | the spawning frames among the n frame counts after `start` number (start + n)/60 − start/60 |
| Rules.TicksFrameCount | script.js:165 | a run of n ticks raises the frame count by n |
| Rules.SpawnsOverTicks | script.js:165-177 | over a run of ticks, the items added before each item loop, summed, equal the spawning frame counts passed |
| Rules.SpawnCadence | script.js:165-177 | a run of n ticks spawns (f + n)/60 − f/60 items from frame count f, so n/60 from a fresh counter |
| Rules.SpawnedItemFallsAtOnce | script.js:165-183 | on an empty field, a spawning tick from score 0 keeps one item, at y = −29 |
| Rules.NoCollisionBelowCanvas | script.js:186-208 | with the hop in [−3, 3], an item touching the bunny is never below the canvas |
| Rules.OperationsKeepConsistent | script.js:145-210 | every operation keeps the bunny on the canvas and the score a multiple of ten, and none lowers the high score |
| Rules.StoppedStaysStopped | script.js:182-209 | a tick never restarts a stopped game |
| BunnyHop.Game.constructor | script.js:36-56 | the object starts in the initial page state |
| BunnyHop.Game.KeyDown | script.js:61-70 | the keydown handler leaves the state `Press` describes |
| BunnyHop.Game.KeyUp | script.js:72-74 | the keyup handler leaves the state `Release` describes |
| BunnyHop.Game.CreateParticles | script.js:76-87 | the push loop appends exactly one `Burst` to the existing particles |
| BunnyHop.Game.UpdateParticle | script.js:91-96 | one iteration ages particle i in place and splices it out iff its life is spent; the rest of the list is untouched |
| BunnyHop.Game.UpdateParticles | script.js:89-98 | the reverse in-place loop leaves exactly `Advanced` of the old list |
| BunnyHop.Game.StartGame | script.js:109-117 | startGame leaves the state `Restart` describes |
| BunnyHop.Game.GameOver | script.js:130-138 | gameOver leaves the state `Finish` describes |
| BunnyHop.Game.MoveBunny | script.js:147-155 | the movement and boundary steps leave the bunny where the reference steering puts it |
| BunnyHop.Game.SpawnItems | script.js:165-177 | the frame count goes up by one and the item list becomes `Spawned` of the old one |
| BunnyHop.Game.UpdateItem | script.js:183-208 | one iteration on index i leaves the lower indices alone and turns the rest into what `Handle` gives for item i |
| BunnyHop.Game.UpdateItems | script.js:182-209 | the reverse in-place loop with splices leaves items, score, high score, run flag and particles as `Sweep` gives them |
| BunnyHop.Game.Update | script.js:145-210 | one update leaves exactly the state `Tick` describes, with the bunny on the canvas and the frame count one higher; the score and high score never drop |
| BunnyHop.Game.Animate | script.js:229-231 | one frame leaves the state `Frame` describes: update runs only while a run is going |

## Left out

- Drawing (`draw`, `drawParticles`, the images, alpha and rectangles): a foreign rendering
  API with no effect on the state. The hop offset used for drawing is not modelled.
- Sound (`playTone`, `sounds`, resuming the audio context): a foreign API with no effect
  on the state.
- DOM text updates and the start and game-over panels: user interface with no effect on
  the state. The second Space branch fires while the game-over panel is visible. It calls
  `startGame` during a run, where that returns at once, so the model treats it as a no-op.
- `localStorage`: the high score is a `nat` given to the constructor. The source reads it
  as a string (or 0) and compares it with `score` by JavaScript coercion; that is not modelled.
- `requestAnimationFrame` and `cancelAnimationFrame`: the host's event loop. One frame is
  one `Animate` call.
- Overlapping frame chains: `gameOver` cancels the request id stored before the current
  frame, but the running frame goes on to request the next one (script.js:132, 233). That
  frame then returns at once because the run has stopped. A Space press in between starts
  a second `animate` chain, and from then on the run ticks twice per host frame. This is
  host scheduling, so the model does not capture it: each `Animate` call is one tick at most.
- BunnyHop.Game.StartGame, Rules.Restart, Rules.Press, BunnyHop.Game.KeyDown: they do not
  run the frame that `startGame` runs at once by calling `animate()` (script.js:127); that
  frame is the host's next `Animate` call. So the frame count, items and score they leave
  are those before that first tick.
- `Math.random` and `Math.sin`: their values are the `rand` and `hop` parameters.
- IEEE-754 rounding: positions, speeds (`score / 100`) and particle life (`-= 0.05`) use
  exact reals. So the 20-update particle lifetime is proved in exact arithmetic.
- The difficulty-scaling block: it is empty, and so it has no effect.
- The frame counter is an unbounded `nat`; a JavaScript number loses precision past 2^53
  frames.
