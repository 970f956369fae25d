/** The whole game state as a value, and what each operation of the source does to it:
    one update tick, startGame, gameOver and the two keyboard handlers. */
module Rules {
  import opened Entities
  import opened Particles
  import opened Items

  /** The module-level state of the game: the key map, the bunny's x, the run state,
      the frame counter and the two object lists. */
  datatype World = World(keys: map<string, bool>, bunnyX: real, score: nat, highScore: nat,
                         running: bool, frameCount: nat, items: seq<Item>, particles: seq<Particle>)

  /** A key counts as held once it has been pressed and not released since. */
  predicate Held(keys: map<string, bool>, code: string) {
    code in keys && keys[code]
  }

  /** The state when the page loads, with the stored high score. */
  function Initial(storedHighScore: nat): (w: World)
    ensures !w.running && w.score == 0 && w.frameCount == 0 && w.highScore == storedHighScore
    ensures w.items == [] && w.particles == [] && w.bunnyX == BunnyHome && OnCanvas(w.bunnyX)
    ensures forall code :: !Held(w.keys, code)
  {
    World(map[], BunnyHome, 0, storedHighScore, false, 0, [], [])
  }

  /** startGame: a no-op while a run is going; otherwise a fresh run that keeps the frame
      counter, the high score and the key map. */
  function Restart(w: World): (r: World)
    ensures r.running
    ensures w.running ==> r == w
    ensures !w.running ==> r.score == 0 && r.items == [] && r.particles == [] && r.bunnyX == BunnyHome
    ensures r.frameCount == w.frameCount && r.highScore == w.highScore && r.keys == w.keys
  {
    if w.running then w
    else w.(score := 0, items := [], particles := [], bunnyX := BunnyHome, running := true)
  }

  /** gameOver: the run stops and the high score becomes the larger of itself and the score. */
  function Finish(w: World): (r: World)
    ensures !r.running
    ensures r.highScore >= w.highScore && r.highScore >= w.score
    ensures r.highScore == w.highScore || r.highScore == w.score
    ensures r.(running := w.running, highScore := w.highScore) == w
  {
    w.(running := false, highScore := Best(w.highScore, w.score))
  }

  /** The keydown handler: the key becomes held, and Space starts a run when none is going. */
  function Press(w: World, code: string): (r: World)
    ensures Held(r.keys, code)
    ensures forall c :: c != code ==> (Held(r.keys, c) <==> Held(w.keys, c))
    ensures code != SpaceKey ==> r.(keys := w.keys) == w
    ensures code == SpaceKey ==> r.running && r.frameCount == w.frameCount && r.highScore == w.highScore
    ensures code == SpaceKey && !w.running ==> r.score == 0 && r.items == [] && r.particles == []
                                                && r.bunnyX == BunnyHome
    ensures code == SpaceKey && w.running ==> r.(keys := w.keys) == w
  {
    var pressed := w.(keys := w.keys[code := true]);
    // The handler's other branch calls startGame while a run is going, when Restart changes nothing.
    if code == SpaceKey && !pressed.running then Restart(pressed) else pressed
  }

  /** The keyup handler: the key is no longer held; nothing else changes. */
  function Release(w: World, code: string): (r: World)
    ensures !Held(r.keys, code)
    ensures forall c :: c != code ==> (Held(r.keys, c) <==> Held(w.keys, c))
    ensures r.(keys := w.keys) == w
  {
    w.(keys := w.keys[code := false])
  }

  /** The bunny's x after the movement and boundary steps of a tick. */
  function Steered(w: World): real {
    Clamp(Move(w.bunnyX, Held(w.keys, LeftKey), Held(w.keys, RightKey)))
  }

  /** The item list the item loop of a tick starts from. */
  function TickItems(w: World, rand: nat -> real): seq<Item> {
    Spawned(w.items, w.frameCount + 1, w.score, rand)
  }

  /** What the item loop of a tick starts from: the score, the high score, the run flag,
      the already updated particles and the first draw not taken by the spawner. */
  function TickStart(w: World): Sweeping {
    Sweeping([], w.score, w.highScore, w.running, Advanced(w.particles), SpawnDraws(w.frameCount + 1))
  }

  /** One call of update: move and clamp the bunny, count the frame and maybe spawn,
      update the particles, then run the item loop. `hop` is the hop offset of this tick
      and `rand` the values Math.random returns during it, in order. */
  function Tick(w: World, hop: real, rand: nat -> real): World {
    var x := Steered(w);
    var s := Sweep(TickItems(w, rand), TickStart(w), x, hop, rand);
    w.(bunnyX := x, frameCount := w.frameCount + 1, items := s.kept, score := s.score,
       highScore := s.highScore, running := s.running, particles := s.particles)
  }

  /** One animation frame: a stopped game is left as it is, a running one takes one tick. */
  function Frame(w: World, hop: real, rand: nat -> real): (r: World)
    ensures !w.running ==> r == w
    ensures w.running ==> r.frameCount == w.frameCount + 1 && OnCanvas(r.bunnyX)
  {
    if w.running then Tick(w, hop, rand) else w
  }

  // ---------------------------------------------------------------------------
  // One tick.

  /** The bunny is moved by independent +-5 deltas for the held keys and clamped to the
      canvas; the frame counter goes up by exactly one; the keys are left alone. */
  lemma TickMovesBunny(w: World, hop: real, rand: nat -> real)
    ensures var r := Tick(w, hop, rand);
      var delta := (if Held(w.keys, RightKey) then BunnySpeed else 0.0)
                 - (if Held(w.keys, LeftKey) then BunnySpeed else 0.0);
      && OnCanvas(r.bunnyX)
      && r.bunnyX == Clamp(w.bunnyX + delta)
      && r.frameCount == w.frameCount + 1
      && r.keys == w.keys
  {
  }

  /** The items after a tick are the reference survivors of the spawned list, so every kept
      item has fallen once by its own speed (a freshly spawned one too) with x, kind, size
      and speed unchanged. */
  lemma {:induction false} TickKeepsItems(w: World, hop: real, rand: nat -> real)
    ensures var r := Tick(w, hop, rand);
      && r.items == Survivors(TickItems(w, rand), Steered(w), hop)
      && forall f :: f in r.items ==> exists it :: it in TickItems(w, rand) && f == Fall(it)
  {
    SweepKept(TickItems(w, rand), TickStart(w), Steered(w), hop, rand);
  }

  /** The score goes up by ten per collected carrot and in no other way. */
  lemma {:induction false} TickScore(w: World, hop: real, rand: nat -> real)
    ensures var r := Tick(w, hop, rand);
      && r.score == w.score + CarrotPoints * Collected(TickItems(w, rand), Steered(w), hop)
      && r.score >= w.score
      && (w.score % CarrotPoints == 0 ==> r.score % CarrotPoints == 0)
  {
    SweepScore(TickItems(w, rand), TickStart(w), Steered(w), hop, rand);
  }

  /** The run stops during a tick exactly when a rock hits; the high score never drops
      and moves only on a hit. */
  lemma {:induction false} TickRunState(w: World, hop: real, rand: nat -> real)
    ensures var r := Tick(w, hop, rand);
      var hits := HitCount(TickItems(w, rand), Steered(w), hop);
      && r.running == (w.running && hits == 0)
      && r.highScore >= w.highScore
      && (hits == 0 ==> r.highScore == w.highScore)
      && (hits > 0 ==> r.highScore >= w.score)
      && r.highScore <= Best(w.highScore, r.score)
  {
    SweepOutcome(TickItems(w, rand), TickStart(w), Steered(w), hop, rand);
  }

  /** The particles a tick's item loop adds: the reference bursts of its spawned list. */
  function TickBursts(w: World, hop: real, rand: nat -> real): seq<Particle> {
    Bursts(TickItems(w, rand), Steered(w), hop, rand, SpawnDraws(w.frameCount + 1))
  }

  /** The particles after a tick are the updated old ones, untouched by the item loop,
      followed by the reference bursts, eight fresh particles per collision. */
  lemma {:induction false} TickParticles(w: World, hop: real, rand: nat -> real)
    ensures var its := TickItems(w, rand);
      && Tick(w, hop, rand).particles == Advanced(w.particles) + TickBursts(w, hop, rand)
      && |TickBursts(w, hop, rand)| == BurstSize * (Collected(its, Steered(w), hop) + HitCount(its, Steered(w), hop))
  {
    var its := TickItems(w, rand);
    var s := Sweep(its, TickStart(w), Steered(w), hop, rand);
    assert Tick(w, hop, rand).particles == s.particles;
    SweepParticles(its, TickStart(w), Steered(w), hop, rand);
  }

  /** Each particle a tick adds is fresh, and red at the bunny's centre or orange at the
      centre of a carrot of the spawned list that the bunny collects. */
  lemma TickBurstsFromCollisions(w: World, hop: real, rand: nat -> real)
    ensures forall q :: q in TickBursts(w, hop, rand) ==> FromCollision(q, TickItems(w, rand), Steered(w), hop)
  {
    BurstsContents(TickItems(w, rand), Steered(w), hop, rand, SpawnDraws(w.frameCount + 1));
  }

  /** The spawn cadence: a tick appends exactly one item before the item loop iff its new
      frame count is a multiple of 60, built from that tick's first two draws and the score
      at that moment. */
  lemma TickSpawns(w: World, rand: nat -> real)
    ensures var its := TickItems(w, rand);
      && its[..|w.items|] == w.items
      && (SpawnTick(w.frameCount + 1) <==> |its| == |w.items| + 1)
      && (!SpawnTick(w.frameCount + 1) ==> its == w.items)
      && (SpawnTick(w.frameCount + 1) ==> its[|w.items|] == NewItem(w.score, rand(0), rand(1)))
  {
  }

  /** The number of spawn ticks among the frame counts start + 1 .. start + n. */
  function SpawnsIn(start: nat, n: nat): nat
    decreases n
  {
    if n == 0 then 0 else (if SpawnTick(start + 1) then 1 else 0) + SpawnsIn(start + 1, n - 1)
  }

  /** Those are the multiples of 60 up to start + n less those up to start. */
  lemma {:induction false} SpawnsInClosedForm(start: nat, n: nat)
    ensures SpawnsIn(start, n) == (start + n) / SpawnRate - start / SpawnRate
    decreases n
  {
    if n > 0 {
      SpawnsInClosedForm(start + 1, n - 1);
      assert (start + 1) / SpawnRate == start / SpawnRate + (if (start + 1) % SpawnRate == 0 then 1 else 0);
    }
  }

  /** What one tick takes from its host: the hop offset and the random draws. */
  datatype Input = Input(hop: real, rand: nat -> real)

  /** The state after one tick per input, in order. */
  function Ticks(w: World, inputs: seq<Input>): World
    decreases |inputs|
  {
    if inputs == [] then w else Ticks(Tick(w, inputs[0].hop, inputs[0].rand), inputs[1..])
  }

  /** The items the spawn step of a tick from `w` appends: one on a spawn tick, else none. */
  function SpawnedBy(w: World, rand: nat -> real): (r: nat)
    ensures r == if SpawnTick(w.frameCount + 1) then 1 else 0
  {
    |TickItems(w, rand)| - |w.items|
  }

  /** The items the spawn steps of a run of ticks append between them. */
  function SpawnedDuring(w: World, inputs: seq<Input>): nat
    decreases |inputs|
  {
    if inputs == [] then 0
    else SpawnedBy(w, inputs[0].rand) + SpawnedDuring(Tick(w, inputs[0].hop, inputs[0].rand), inputs[1..])
  }

  /** Every tick counts one frame. */
  lemma {:induction false} TicksFrameCount(w: World, inputs: seq<Input>)
    ensures Ticks(w, inputs).frameCount == w.frameCount + |inputs|
    decreases |inputs|
  {
    if inputs != [] {
      TicksFrameCount(Tick(w, inputs[0].hop, inputs[0].rand), inputs[1..]);
    }
  }

  /** The ticks of a run spawn one item per multiple of 60 among the frame counts they
      reach, whatever the hops, draws and states. */
  lemma {:induction false} SpawnsOverTicks(w: World, inputs: seq<Input>)
    ensures SpawnedDuring(w, inputs) == SpawnsIn(w.frameCount, |inputs|)
    decreases |inputs|
  {
    if inputs != [] {
      var v := Tick(w, inputs[0].hop, inputs[0].rand);
      var first := if SpawnTick(w.frameCount + 1) then 1 else 0;
      assert v.frameCount == w.frameCount + 1;
      SpawnsOverTicks(v, inputs[1..]);
      assert SpawnedDuring(w, inputs) == first + SpawnedDuring(v, inputs[1..]);
      assert SpawnsIn(w.frameCount, |inputs|) == first + SpawnsIn(w.frameCount + 1, |inputs| - 1);
    }
  }

  /** The spawn cadence: a run of n ticks spawns as many items as there are multiples of 60
      between its first and last frame count; from a fresh frame counter that is n / 60. */
  lemma SpawnCadence(w: World, inputs: seq<Input>)
    ensures SpawnedDuring(w, inputs) == (w.frameCount + |inputs|) / SpawnRate - w.frameCount / SpawnRate
    ensures w.frameCount == 0 ==> SpawnedDuring(w, inputs) == |inputs| / SpawnRate
  {
    var k := |inputs|;
    SpawnsOverTicks(w, inputs);
    SpawnsInClosedForm(w.frameCount, k);
    assert SpawnedDuring(w, inputs) == (w.frameCount + k) / SpawnRate - w.frameCount / SpawnRate;
  }

  /** On an empty field, the tick that spawns keeps its new item, already fallen once:
      from score 0 it is at y = -29, not at its spawn row. */
  lemma {:induction false} SpawnedItemFallsAtOnce(w: World, hop: real, rand: nat -> real)
    requires w.items == [] && SpawnTick(w.frameCount + 1) && w.score == 0
    requires -3.0 <= hop <= 3.0
    ensures var r := Tick(w, hop, rand);
      && |r.items| == 1
      && r.items[0] == NewItem(0, rand(0), rand(1)).(y := -ItemSize + ItemSpeed)
  {
    var it := NewItem(0, rand(0), rand(1));
    assert TickItems(w, rand) == [it];
    assert !Overlaps(Steered(w), BunnyTop(hop), Fall(it));
    assert Survivors([it], Steered(w), hop) == [Fall(it)];
    TickKeepsItems(w, hop, rand);
  }

  /** With the source's hop range, an item that meets the bunny is never below the canvas,
      so the collision-first order never has to break a tie. */
  lemma NoCollisionBelowCanvas(it: Item, bx: real, hop: real)
    requires -3.0 <= hop <= 3.0
    ensures Overlaps(bx, BunnyTop(hop), Fall(it)) ==> !(Fall(it).y > CanvasHeight)
  {
  }

  // ---------------------------------------------------------------------------
  // Across operations.

  /** Facts every reachable state keeps: the bunny on the canvas and a score that is a
      whole number of carrots. */
  ghost predicate Consistent(w: World) {
    OnCanvas(w.bunnyX) && w.score % CarrotPoints == 0
  }

  /** The page starts consistent and every operation keeps it so, while the high score
      never goes down. */
  lemma {:induction false} OperationsKeepConsistent(w: World, hop: real, rand: nat -> real, code: string, stored: nat)
    requires Consistent(w)
    ensures Consistent(Initial(stored))
    ensures Consistent(Tick(w, hop, rand)) && Tick(w, hop, rand).highScore >= w.highScore
    ensures Consistent(Frame(w, hop, rand)) && Frame(w, hop, rand).highScore >= w.highScore
    ensures Consistent(Restart(w)) && Restart(w).highScore >= w.highScore
    ensures Consistent(Finish(w)) && Finish(w).highScore >= w.highScore
    ensures Consistent(Press(w, code)) && Press(w, code).highScore >= w.highScore
    ensures Consistent(Release(w, code)) && Release(w, code).highScore >= w.highScore
  {
    TickScore(w, hop, rand);
    TickRunState(w, hop, rand);
  }

  /** A stopped game stays stopped through ticks: nothing but Space restarts it. This is
      the run-flag half of TickRunState with the run already stopped. */
  lemma {:induction false} StoppedStaysStopped(w: World, hop: real, rand: nat -> real)
    requires !w.running
    ensures !Tick(w, hop, rand).running
  {
    TickRunState(w, hop, rand);
  }
}
