/** The game as the source runs it: one object whose fields are reassigned and whose
    item and particle lists are changed in place, each method proved to do what the
    matching function of Rules says. */
module BunnyHop {
  import opened Entities
  import opened Particles
  import opened Items
  import opened Rules

  class Game {
    var keys: map<string, bool>
    var bunnyX: real
    var score: nat
    var highScore: nat
    var running: bool
    var frameCount: nat
    var items: seq<Item>
    var particles: seq<Particle>

    /** The fields as one value. */
    function State(): World
      reads this
    {
      World(keys, bunnyX, score, highScore, running, frameCount, items, particles)
    }

    /** The state at page load; `storedHighScore` is what the browser storage held (0 if nothing). */
    constructor (storedHighScore: nat)
      ensures State() == Initial(storedHighScore)
    {
      keys := map[];
      bunnyX := BunnyHome;
      score := 0;
      highScore := storedHighScore;
      running := false;
      frameCount := 0;
      items := [];
      particles := [];
    }

    /** The keydown handler. */
    method KeyDown(code: string)
      modifies this
      ensures State() == Press(old(State()), code)
    {
      keys := keys[code := true];
      if code == SpaceKey {
        if !running {
          StartGame();
        }
        // Otherwise the source calls startGame again when the game-over panel is shown,
        // and startGame returns at once because a run is going.
      }
    }

    /** The keyup handler. */
    method KeyUp(code: string)
      modifies this
      ensures State() == Release(old(State()), code)
    {
      keys := keys[code := false];
    }

    /** createParticles: append one burst of eight, drawing from position `from` of `rand`. */
    method CreateParticles(x: real, y: real, color: string, rand: nat -> real, from: nat)
      modifies this`particles
      ensures particles == old(particles) + Burst(x, y, color, rand, from)
    {
      ghost var burst := Burst(x, y, color, rand, from);
      for i := 0 to BurstSize
        invariant particles == old(particles) + burst[..i]
      {
        assert burst[..i + 1] == burst[..i] + [Spark(x, y, color, rand, from + 2 * i)];
        particles := particles + [Spark(x, y, color, rand, from + 2 * i)];
      }
      assert burst[..BurstSize] == burst;
    }

    /** One iteration of the particle loop, on index `i`: move the particle and spend
        one step of its life, then remove it in place if that life is gone. */
    method UpdateParticle(i: nat)
      requires i < |particles|
      modifies this`particles
      ensures particles == old(particles[..i]) + Survivor(old(particles[i])) + old(particles[i + 1..])
    {
      ghost var before := particles;
      particles := particles[i := Age(particles[i])];
      assert particles == before[..i] + [Age(before[i])] + before[i + 1..];
      if particles[i].life <= 0.0 {
        particles := particles[..i] + particles[i + 1..];
      }
    }

    /** updateParticles: from the last particle down, each particle handled in place by
        UpdateParticle. */
    method UpdateParticles()
      modifies this`particles
      ensures particles == Advanced(old(particles))
    {
      ghost var ps := particles;
      var i := |particles|;
      while i > 0
        invariant 0 <= i <= |ps|
        invariant particles == ps[..i] + Advanced(ps[i..])
      {
        i := i - 1;
        AdvancedFrom(ps, i);
        assert ps[..i + 1] == ps[..i] + [ps[i]];
        assert particles[..i] == ps[..i] && particles[i] == ps[i]
            && particles[i + 1..] == Advanced(ps[i + 1..]);
        UpdateParticle(i);
      }
      assert ps[0..] == ps;
    }

    /** startGame. The source then calls animate(), whose first tick is the host's next Update. */
    method StartGame()
      modifies this
      ensures State() == Restart(old(State()))
    {
      if running {
        return;
      }
      score := 0;
      items := [];
      particles := [];
      bunnyX := BunnyHome;
      running := true;
    }

    /** gameOver. */
    method GameOver()
      modifies this`running, this`highScore
      ensures State() == Finish(old(State()))
    {
      running := false;
      if score > highScore {
        highScore := score;
      }
    }

    /** The movement and boundary steps of update. */
    method MoveBunny()
      modifies this`bunnyX
      ensures bunnyX == Steered(old(State()))
    {
      if Held(keys, LeftKey) {
        bunnyX := bunnyX - BunnySpeed;
      }
      if Held(keys, RightKey) {
        bunnyX := bunnyX + BunnySpeed;
      }
      if bunnyX < 0.0 {
        bunnyX := 0.0;
      }
      if bunnyX + BunnyWidth > CanvasWidth {
        bunnyX := CanvasWidth - BunnyWidth;
      }
    }

    /** The frame count and spawn steps of update; `used` is the number of draws taken. */
    method SpawnItems(rand: nat -> real) returns (used: nat)
      modifies this`frameCount, this`items
      ensures frameCount == old(frameCount) + 1
      ensures items == Spawned(old(items), frameCount, score, rand)
      ensures used == SpawnDraws(frameCount)
    {
      frameCount := frameCount + 1;
      used := 0;
      if frameCount % SpawnRate == 0 {
        var isCarrot := rand(0) > CarrotThreshold;
        items := items + [Item(rand(1) * (CanvasWidth - ItemSize), -ItemSize, ItemSize, ItemSize,
                               if isCarrot then Carrot else Rock, ItemSpeed + (score as real) / 100.0)];
        used := 2;
      }
    }

    /** One iteration of the item loop, on index `i`: move the item, then collect it,
        keep it or cull it in place. Bursts draw from position `cursor` of `rand`;
        `next` is the first draw left unused. */
    method UpdateItem(i: nat, hop: real, rand: nat -> real, cursor: nat) returns (next: nat)
      requires i < |items|
      modifies this`items, this`score, this`highScore, this`running, this`particles
      ensures i <= |items| && items[..i] == old(items[..i])
      ensures Sweeping(items[i..], score, highScore, running, particles, next)
           == Handle(old(items[i]), Sweeping(old(items[i + 1..]), old(score), old(highScore), old(running),
                                             old(particles), cursor), bunnyX, hop, rand)
    {
      ghost var before := Sweeping(items[i + 1..], score, highScore, running, particles, cursor);
      ghost var after := Handle(items[i], before, bunnyX, hop, rand);
      ghost var first := items[..i];
      ghost var original := items[i];
      next := cursor;
      items := items[i := items[i].(y := items[i].y + items[i].speed)];
      var item := items[i];
      if Overlaps(bunnyX, BunnyY + hop, item) {
        if item.kind == Carrot {
          CarrotCollision(original, before, bunnyX, hop, rand);
          score := score + CarrotPoints;
          CreateParticles(item.x + 16.0, item.y + 16.0, CarrotColor, rand, next);
          next := next + BurstDraws;
          items := items[..i] + items[i + 1..];
          assert items[i..] == before.kept;
        } else {
          RockCollision(original, before, bunnyX, hop, rand);
          CreateParticles(bunnyX + 16.0, BunnyY + 16.0, RockColor, rand, next);
          next := next + BurstDraws;
          GameOver();
          assert items[i..] == [item] + before.kept;
        }
      } else {
        MissedItem(original, before, bunnyX, hop, rand);
        if item.y > CanvasHeight {
          items := items[..i] + items[i + 1..];
          assert items[i..] == before.kept;
        } else {
          assert items[i..] == [item] + before.kept;
        }
      }
      assert items[..i] == first;
    }

    /** The item loop of update: from the last item down, each item handled in place by
        UpdateItem, with the bunny's box raised by `hop`; bursts draw from position `from`
        of `rand` on. */
    method UpdateItems(hop: real, rand: nat -> real, from: nat)
      modifies this`items, this`score, this`highScore, this`running, this`particles
      ensures var s := Sweep(old(items), Sweeping([], old(score), old(highScore), old(running), old(particles), from),
                             bunnyX, hop, rand);
        items == s.kept && score == s.score && highScore == s.highScore
        && running == s.running && particles == s.particles
    {
      ghost var its := items;
      ghost var goal := Sweep(its, Sweeping([], score, highScore, running, particles, from), bunnyX, hop, rand);
      var cursor: nat := from;
      var i := |items|;
      assert its[..i] == its && items[i..] == [];
      while i > 0
        invariant 0 <= i <= |its| && i <= |items|
        invariant items[..i] == its[..i]
        invariant Sweep(its[..i], Sweeping(items[i..], score, highScore, running, particles, cursor),
                        bunnyX, hop, rand) == goal
      {
        ghost var before := Sweeping(items[i..], score, highScore, running, particles, cursor);
        i := i - 1;
        assert its[..i + 1][..i] == its[..i];
        assert its[..i + 1][i] == its[i] == items[i];
        assert items[i + 1..] == before.kept;
        cursor := UpdateItem(i, hop, rand, cursor);
        assert items[..i] == its[..i];
      }
      assert its[..0] == [];
    }

    /** update: one tick. `hop` stands for sin(frameCount * 0.2) * 3 at the start of the tick
        and `rand` for the values Math.random returns during it, in order. */
    method Update(hop: real, rand: nat -> real)
      requires -3.0 <= hop <= 3.0
      requires UnitDraws(rand)
      modifies this
      ensures State() == Tick(old(State()), hop, rand)
      ensures OnCanvas(bunnyX) && frameCount == old(frameCount) + 1
      ensures highScore >= old(highScore) && score >= old(score)
    {
      ghost var w := State();
      MoveBunny();
      var used := SpawnItems(rand);
      UpdateParticles();
      assert items == TickItems(w, rand);
      assert Sweeping([], score, highScore, running, particles, used) == TickStart(w);
      UpdateItems(hop, rand, used);
      ghost var s := Sweep(TickItems(w, rand), TickStart(w), Steered(w), hop, rand);
      assert items == s.kept && score == s.score && highScore == s.highScore
          && running == s.running && particles == s.particles;
      assert State() == Tick(w, hop, rand);
      TickMovesBunny(w, hop, rand);
      TickScore(w, hop, rand);
      TickRunState(w, hop, rand);
    }

    /** animate: one frame, which runs update only while a run is going; the drawing and
        the request for the next frame are not part of this model. */
    method Animate(hop: real, rand: nat -> real)
      requires -3.0 <= hop <= 3.0
      requires UnitDraws(rand)
      modifies this
      ensures State() == Frame(old(State()), hop, rand)
    {
      if !running {
        return;
      }
      Update(hop, rand);
    }
  }
}
