/** The item spawner and the item loop of one tick: every item falls, is tested
    against the bunny, and is collected, kept, or culled. */
module Items {
  import opened Entities
  import opened Particles

  /** The item spawned on a tick, from the score at that moment, the type draw and the x draw. */
  function NewItem(score: nat, typeDraw: real, xDraw: real): (it: Item)
    ensures it.y == -ItemSize && it.width == ItemSize && it.height == ItemSize
    ensures it.kind == Carrot <==> typeDraw > CarrotThreshold
    ensures it.speed == ItemSpeed + (score as real) / 100.0
    ensures 0.0 <= xDraw < 1.0 ==> 0.0 <= it.x < CanvasWidth - ItemSize
  {
    var isCarrot := typeDraw > CarrotThreshold;
    Item(xDraw * (CanvasWidth - ItemSize), -ItemSize, ItemSize, ItemSize,
         if isCarrot then Carrot else Rock, ItemSpeed + (score as real) / 100.0)
  }

  predicate SpawnTick(frameCount: nat) {
    frameCount % SpawnRate == 0
  }

  /** The item list after the spawn step of a tick whose incremented frame count is
      `frameCount`; a spawn takes draws 0 (type) and 1 (x). */
  function Spawned(items: seq<Item>, frameCount: nat, score: nat, rand: nat -> real): (r: seq<Item>)
    ensures |r| == |items| + (if SpawnTick(frameCount) then 1 else 0)
    ensures r[..|items|] == items
    ensures SpawnTick(frameCount) ==> r[|items|] == NewItem(score, rand(0), rand(1))
  {
    if SpawnTick(frameCount) then items + [NewItem(score, rand(0), rand(1))] else items
  }

  /** The draws the spawn step took; bursts draw from here on. */
  function SpawnDraws(frameCount: nat): nat {
    if SpawnTick(frameCount) then 2 else 0
  }

  /** An item one tick of falling later. */
  function Fall(it: Item): Item {
    it.(y := it.y + it.speed)
  }

  // ---------------------------------------------------------------------------
  // Outcome of one item, which depends only on the item and the bunny's box.

  /** The bunny's box top this tick: its row shifted by the hop offset. */
  function BunnyTop(hop: real): real {
    BunnyY + hop
  }

  predicate Collects(it: Item, bx: real, hop: real) {
    Overlaps(bx, BunnyTop(hop), Fall(it)) && Fall(it).kind == Carrot
  }

  predicate Hits(it: Item, bx: real, hop: real) {
    Overlaps(bx, BunnyTop(hop), Fall(it)) && Fall(it).kind == Rock
  }

  /** The item stays in the list: it is a rock that hit the bunny, or it missed and is
      still above the bottom edge. */
  predicate Stays(it: Item, bx: real, hop: real) {
    var f := Fall(it);
    if Overlaps(bx, BunnyTop(hop), f) then f.kind == Rock else !(f.y > CanvasHeight)
  }

  function Keep(it: Item, bx: real, hop: real): seq<Item> {
    if Stays(it, bx, hop) then [Fall(it)] else []
  }

  /** Reference definition of the items a tick keeps: the fallen items that stay, in list order. */
  function Survivors(items: seq<Item>, bx: real, hop: real): (r: seq<Item>)
    ensures |r| <= |items|
    ensures forall f :: f in r ==> exists it :: it in items && Stays(it, bx, hop) && f == Fall(it)
    ensures forall it :: it in items && Stays(it, bx, hop) ==> Fall(it) in r
  {
    if items == [] then [] else Keep(items[0], bx, hop) + Survivors(items[1..], bx, hop)
  }

  /** Reference count of the carrots a tick collects. */
  function Collected(items: seq<Item>, bx: real, hop: real): nat {
    if items == [] then 0
    else (if Collects(items[0], bx, hop) then 1 else 0) + Collected(items[1..], bx, hop)
  }

  /** Reference count of the rocks that hit the bunny in a tick. */
  function HitCount(items: seq<Item>, bx: real, hop: real): nat {
    if items == [] then 0
    else (if Hits(items[0], bx, hop) then 1 else 0) + HitCount(items[1..], bx, hop)
  }

  /** The burst an item's collision adds, drawing from position `cursor`: orange at the
      fallen carrot's centre, red at the bunny's centre for a rock, none for a miss. */
  function BurstFor(it: Item, bx: real, hop: real, rand: nat -> real, cursor: nat): seq<Particle> {
    var f := Fall(it);
    if !Overlaps(bx, BunnyTop(hop), f) then []
    else if f.kind == Carrot then Burst(f.x + 16.0, f.y + 16.0, CarrotColor, rand, cursor)
    else Burst(bx + 16.0, BunnyY + 16.0, RockColor, rand, cursor)
  }

  /** The draws an item's collision takes. */
  function DrawsFor(it: Item, bx: real, hop: real): nat {
    if Overlaps(bx, BunnyTop(hop), Fall(it)) then BurstDraws else 0
  }

  /** Reference definition of the particles a tick's collisions add, in the order the loop
      meets the items (last first), each burst drawing where the previous one stopped. */
  function Bursts(items: seq<Item>, bx: real, hop: real, rand: nat -> real, cursor: nat): seq<Particle>
    decreases |items|
  {
    if items == [] then []
    else
      var n := |items| - 1;
      BurstFor(items[n], bx, hop, rand, cursor) + Bursts(items[..n], bx, hop, rand, cursor + DrawsFor(items[n], bx, hop))
  }

  /** A particle one of the collisions of `items` made: fresh (life 1.0), and either red at
      the bunny's centre with a rock of the list hitting, or orange at the centre of a
      carrot of the list the bunny collects. */
  ghost predicate FromCollision(q: Particle, items: seq<Item>, bx: real, hop: real) {
    && q.life == 1.0
    && ((q.color == RockColor && q.x == bx + 16.0 && q.y == BunnyY + 16.0
         && exists it :: it in items && Hits(it, bx, hop))
        || (q.color == CarrotColor
            && exists it :: it in items && Collects(it, bx, hop)
                 && q.x == Fall(it).x + 16.0 && q.y == Fall(it).y + 16.0))
  }

  /** The burst of a single item of the list is made by a collision of the list. */
  lemma BurstForContents(it: Item, items: seq<Item>, bx: real, hop: real, rand: nat -> real, cursor: nat)
    requires it in items
    ensures forall q :: q in BurstFor(it, bx, hop, rand, cursor) ==> FromCollision(q, items, bx, hop)
  {
    var f := Fall(it);
    var head := BurstFor(it, bx, hop, rand, cursor);
    forall q | q in head
      ensures FromCollision(q, items, bx, hop)
    {
      var k :| 0 <= k < |head| && head[k] == q;
      if f.kind == Carrot {
        assert Collects(it, bx, hop);
      } else {
        assert Hits(it, bx, hop);
      }
    }
  }

  /** A particle made by a collision of a prefix is made by one of the whole list. */
  lemma FromCollisionPrefix(q: Particle, items: seq<Item>, n: nat, bx: real, hop: real)
    requires n <= |items| && FromCollision(q, items[..n], bx, hop)
    ensures FromCollision(q, items, bx, hop)
  {
    if q.color == RockColor {
      var it :| it in items[..n] && Hits(it, bx, hop);
      assert it in items;
    } else {
      var it :| it in items[..n] && Collects(it, bx, hop)
          && q.x == Fall(it).x + 16.0 && q.y == Fall(it).y + 16.0;
      assert it in items;
    }
  }

  /** Every particle the collisions add is one they made. */
  lemma {:induction false} BurstsContents(items: seq<Item>, bx: real, hop: real, rand: nat -> real, cursor: nat)
    ensures forall q :: q in Bursts(items, bx, hop, rand, cursor) ==> FromCollision(q, items, bx, hop)
    decreases |items|
  {
    if items != [] {
      var n := |items| - 1;
      var next := cursor + DrawsFor(items[n], bx, hop);
      var head := BurstFor(items[n], bx, hop, rand, cursor);
      var rest := Bursts(items[..n], bx, hop, rand, next);
      BurstsContents(items[..n], bx, hop, rand, next);
      BurstForContents(items[n], items, bx, hop, rand, cursor);
      forall q | q in Bursts(items, bx, hop, rand, cursor)
        ensures FromCollision(q, items, bx, hop)
      {
        if q !in head {
          assert q in rest;
          FromCollisionPrefix(q, items, n, bx, hop);
        }
      }
    }
  }

  // ---------------------------------------------------------------------------
  // The item loop as the source runs it: from the last index down.

  /** What the loop has built so far: the kept suffix of the item list, the run state
      it may change, the particle list and the next unused random draw. */
  datatype Sweeping = Sweeping(kept: seq<Item>, score: nat, highScore: nat, running: bool,
                               particles: seq<Particle>, cursor: nat)

  /** One iteration of the item loop on item `it`. */
  function Handle(it: Item, a: Sweeping, bx: real, hop: real, rand: nat -> real): Sweeping {
    var f := Fall(it);
    if Overlaps(bx, BunnyTop(hop), f) then
      if f.kind == Carrot then
        a.(score := a.score + CarrotPoints,
           particles := a.particles + Burst(f.x + 16.0, f.y + 16.0, CarrotColor, rand, a.cursor),
           cursor := a.cursor + BurstDraws)
      else
        // the game ends, but the rock stays and the loop goes on
        a.(kept := [f] + a.kept,
           particles := a.particles + Burst(bx + 16.0, BunnyY + 16.0, RockColor, rand, a.cursor),
           cursor := a.cursor + BurstDraws,
           running := false,
           highScore := Best(a.highScore, a.score))
    else if f.y > CanvasHeight then
      a
    else
      a.(kept := [f] + a.kept)
  }

  /** The item loop over `pending`, last item first. */
  function Sweep(pending: seq<Item>, a: Sweeping, bx: real, hop: real, rand: nat -> real): Sweeping
    decreases |pending|
  {
    if pending == [] then a
    else
      var n := |pending| - 1;
      Sweep(pending[..n], Handle(pending[n], a, bx, hop, rand), bx, hop, rand)
  }

  // ---------------------------------------------------------------------------
  // One item.

  /** A carrot that meets the bunny: ten points, eight orange particles at its centre,
      and it leaves the list; the run state is otherwise untouched. */
  lemma CarrotCollision(it: Item, a: Sweeping, bx: real, hop: real, rand: nat -> real)
    requires Collects(it, bx, hop)
    ensures var r := Handle(it, a, bx, hop, rand);
      && r.score == a.score + CarrotPoints
      && r.kept == a.kept
      && r.particles == a.particles + Burst(Fall(it).x + 16.0, Fall(it).y + 16.0, CarrotColor, rand, a.cursor)
      && r.cursor == a.cursor + BurstDraws
      && r.running == a.running && r.highScore == a.highScore
  {
  }

  /** A rock that meets the bunny: the score stays, the rock stays in the list, eight red
      particles at the bunny's centre, the run stops and the high score takes the maximum. */
  lemma RockCollision(it: Item, a: Sweeping, bx: real, hop: real, rand: nat -> real)
    requires Hits(it, bx, hop)
    ensures var r := Handle(it, a, bx, hop, rand);
      && r.score == a.score
      && r.kept == [Fall(it)] + a.kept
      && r.particles == a.particles + Burst(bx + 16.0, BunnyY + 16.0, RockColor, rand, a.cursor)
      && r.cursor == a.cursor + BurstDraws
      && !r.running && r.highScore == Best(a.highScore, a.score)
  {
  }

  /** An item that misses is kept, fallen, exactly when it is not below the canvas. */
  lemma MissedItem(it: Item, a: Sweeping, bx: real, hop: real, rand: nat -> real)
    requires !Overlaps(bx, BunnyTop(hop), Fall(it))
    ensures var r := Handle(it, a, bx, hop, rand);
      && r.kept == (if Fall(it).y > CanvasHeight then a.kept else [Fall(it)] + a.kept)
      && r.(kept := a.kept) == a
  {
  }

  /** The collision test comes before culling: an item that both overlaps the bunny and
      is below the canvas is resolved as a collision. */
  lemma CollisionBeforeCulling(it: Item, a: Sweeping, bx: real, hop: real, rand: nat -> real)
    requires Overlaps(bx, BunnyTop(hop), Fall(it)) && Fall(it).y > CanvasHeight
    ensures var r := Handle(it, a, bx, hop, rand);
      && |r.particles| == |a.particles| + BurstSize
      && (it.kind == Carrot ==> r.score == a.score + CarrotPoints)
      && (it.kind == Rock ==> r.kept == [Fall(it)] + a.kept && !r.running)
  {
  }

  // ---------------------------------------------------------------------------
  // The whole loop against the reference definitions.

  lemma {:induction false} SurvivorsSnoc(p: seq<Item>, x: Item, bx: real, hop: real)
    ensures Survivors(p + [x], bx, hop) == Survivors(p, bx, hop) + Keep(x, bx, hop)
  {
    if p == [] {
      assert p + [x] == [x];
      assert [x][1..] == [];
    } else {
      assert (p + [x])[0] == p[0];
      assert (p + [x])[1..] == p[1..] + [x];
      SurvivorsSnoc(p[1..], x, bx, hop);
    }
  }

  lemma {:induction false} CollectedSnoc(p: seq<Item>, x: Item, bx: real, hop: real)
    ensures Collected(p + [x], bx, hop) == Collected(p, bx, hop) + (if Collects(x, bx, hop) then 1 else 0)
  {
    if p == [] {
      assert p + [x] == [x];
      assert [x][1..] == [];
    } else {
      assert (p + [x])[0] == p[0];
      assert (p + [x])[1..] == p[1..] + [x];
      CollectedSnoc(p[1..], x, bx, hop);
    }
  }

  lemma {:induction false} HitCountSnoc(p: seq<Item>, x: Item, bx: real, hop: real)
    ensures HitCount(p + [x], bx, hop) == HitCount(p, bx, hop) + (if Hits(x, bx, hop) then 1 else 0)
  {
    if p == [] {
      assert p + [x] == [x];
      assert [x][1..] == [];
    } else {
      assert (p + [x])[0] == p[0];
      assert (p + [x])[1..] == p[1..] + [x];
      HitCountSnoc(p[1..], x, bx, hop);
    }
  }

  /** The snoc lemmas read at the last index of a non-empty list. */
  lemma LastSurvivors(s: seq<Item>, bx: real, hop: real)
    requires s != []
    ensures Survivors(s, bx, hop) == Survivors(s[..|s| - 1], bx, hop) + Keep(s[|s| - 1], bx, hop)
  {
    assert s == s[..|s| - 1] + [s[|s| - 1]];
    SurvivorsSnoc(s[..|s| - 1], s[|s| - 1], bx, hop);
  }

  lemma LastCounts(s: seq<Item>, bx: real, hop: real)
    requires s != []
    ensures Collected(s, bx, hop) == Collected(s[..|s| - 1], bx, hop) + (if Collects(s[|s| - 1], bx, hop) then 1 else 0)
    ensures HitCount(s, bx, hop) == HitCount(s[..|s| - 1], bx, hop) + (if Hits(s[|s| - 1], bx, hop) then 1 else 0)
  {
    assert s == s[..|s| - 1] + [s[|s| - 1]];
    CollectedSnoc(s[..|s| - 1], s[|s| - 1], bx, hop);
    HitCountSnoc(s[..|s| - 1], s[|s| - 1], bx, hop);
  }

  /** Running the loop from the last index down keeps exactly the reference survivors,
      in list order, in front of what was already kept. */
  lemma {:induction false} SweepKept(s: seq<Item>, a: Sweeping, bx: real, hop: real, rand: nat -> real)
    ensures Sweep(s, a, bx, hop, rand).kept == Survivors(s, bx, hop) + a.kept
    decreases |s|
  {
    if s != [] {
      var n := |s| - 1;
      var b := Handle(s[n], a, bx, hop, rand);
      assert b.kept == Keep(s[n], bx, hop) + a.kept;
      SweepKept(s[..n], b, bx, hop, rand);
      LastSurvivors(s, bx, hop);
    }
  }

  /** The loop adds ten points per collected carrot and nothing else to the score. */
  lemma {:induction false} SweepScore(s: seq<Item>, a: Sweeping, bx: real, hop: real, rand: nat -> real)
    ensures Sweep(s, a, bx, hop, rand).score == a.score + CarrotPoints * Collected(s, bx, hop)
    decreases |s|
  {
    if s != [] {
      var n := |s| - 1;
      SweepScore(s[..n], Handle(s[n], a, bx, hop, rand), bx, hop, rand);
      LastCounts(s, bx, hop);
    }
  }

  /** The run stops exactly when some rock hits; the high score never drops, changes only
      through a hit, and ends up at most the larger of the old high score and the final score. */
  lemma {:induction false} SweepOutcome(s: seq<Item>, a: Sweeping, bx: real, hop: real, rand: nat -> real)
    ensures var r := Sweep(s, a, bx, hop, rand);
      && r.running == (a.running && HitCount(s, bx, hop) == 0)
      && r.highScore >= a.highScore
      && (HitCount(s, bx, hop) == 0 ==> r.highScore == a.highScore)
      && (HitCount(s, bx, hop) > 0 ==> r.highScore >= a.score)
      && r.highScore <= Best(a.highScore, r.score)
    decreases |s|
  {
    if s != [] {
      var n := |s| - 1;
      var b := Handle(s[n], a, bx, hop, rand);
      HandleScores(s[n], a, bx, hop, rand);
      SweepOutcome(s[..n], b, bx, hop, rand);
      SweepScore(s[..n], b, bx, hop, rand);
      LastCounts(s, bx, hop);
    }
  }

  /** One item adds a burst of eight exactly when it collides. */
  lemma BurstForLength(it: Item, bx: real, hop: real, rand: nat -> real, cursor: nat)
    ensures |BurstFor(it, bx, hop, rand, cursor)|
         == BurstSize * ((if Collects(it, bx, hop) then 1 else 0) + (if Hits(it, bx, hop) then 1 else 0))
  {
  }

  /** Each collision, carrot or rock, adds one burst of eight. */
  lemma {:induction false} BurstsLength(s: seq<Item>, bx: real, hop: real, rand: nat -> real, cursor: nat)
    ensures |Bursts(s, bx, hop, rand, cursor)| == BurstSize * (Collected(s, bx, hop) + HitCount(s, bx, hop))
    decreases |s|
  {
    if s != [] {
      var n := |s| - 1;
      var next := cursor + DrawsFor(s[n], bx, hop);
      BurstsLength(s[..n], bx, hop, rand, next);
      BurstForLength(s[n], bx, hop, rand, cursor);
      assert |Bursts(s, bx, hop, rand, cursor)|
          == |BurstFor(s[n], bx, hop, rand, cursor)| + |Bursts(s[..n], bx, hop, rand, next)|;
      LastCounts(s, bx, hop);
    }
  }

  /** What one iteration adds to the particles and how far it moves the draw cursor. */
  lemma HandleBurst(it: Item, a: Sweeping, bx: real, hop: real, rand: nat -> real)
    ensures var b := Handle(it, a, bx, hop, rand);
      && b.particles == a.particles + BurstFor(it, bx, hop, rand, a.cursor)
      && b.cursor == a.cursor + DrawsFor(it, bx, hop)
  {
  }

  /** The loop appends exactly the reference bursts to the particles already present. */
  lemma {:induction false} SweepBursts(s: seq<Item>, a: Sweeping, bx: real, hop: real, rand: nat -> real)
    ensures Sweep(s, a, bx, hop, rand).particles == a.particles + Bursts(s, bx, hop, rand, a.cursor)
    decreases |s|
  {
    if s != [] {
      var n := |s| - 1;
      var b := Handle(s[n], a, bx, hop, rand);
      HandleBurst(s[n], a, bx, hop, rand);
      SweepBursts(s[..n], b, bx, hop, rand);
      var head := BurstFor(s[n], bx, hop, rand, a.cursor);
      var rest := Bursts(s[..n], bx, hop, rand, b.cursor);
      assert (a.particles + head) + rest == a.particles + (head + rest);
    }
  }

  /** Each collision uses up sixteen draws and nothing else draws. */
  lemma {:induction false} SweepCursor(s: seq<Item>, a: Sweeping, bx: real, hop: real, rand: nat -> real)
    ensures Sweep(s, a, bx, hop, rand).cursor
         == a.cursor + BurstDraws * (Collected(s, bx, hop) + HitCount(s, bx, hop))
    decreases |s|
  {
    if s != [] {
      var n := |s| - 1;
      var b := Handle(s[n], a, bx, hop, rand);
      SweepCursor(s[..n], b, bx, hop, rand);
      LastCounts(s, bx, hop);
    }
  }

  /** The particles already present are untouched, and the loop appends exactly the
      reference bursts: eight fresh particles per collision, red at the bunny's centre or
      orange at the collected carrot's centre; each collision uses up sixteen draws. */
  lemma SweepParticles(s: seq<Item>, a: Sweeping, bx: real, hop: real, rand: nat -> real)
    ensures var r := Sweep(s, a, bx, hop, rand);
      var bursts := Collected(s, bx, hop) + HitCount(s, bx, hop);
      && r.particles == a.particles + Bursts(s, bx, hop, rand, a.cursor)
      && |r.particles| == |a.particles| + BurstSize * bursts
      && r.particles[..|a.particles|] == a.particles
      && r.cursor == a.cursor + BurstDraws * bursts
  {
    SweepBursts(s, a, bx, hop, rand);
    SweepCursor(s, a, bx, hop, rand);
    BurstsLength(s, bx, hop, rand, a.cursor);
  }

  /** The index of the lowest-index rock that hits, the last one the reverse loop meets;
      |s| when no rock hits. */
  function FirstHit(s: seq<Item>, bx: real, hop: real): (r: nat)
    ensures r <= |s|
    ensures HitCount(s, bx, hop) > 0 ==> r < |s|
    decreases |s|
  {
    if s == [] || Hits(s[0], bx, hop) then 0 else 1 + FirstHit(s[1..], bx, hop)
  }

  /** On a list with a hit, FirstHit is a hitting rock and no rock below it hits. */
  lemma {:induction false} FirstHitLowest(s: seq<Item>, bx: real, hop: real)
    requires HitCount(s, bx, hop) > 0
    ensures FirstHit(s, bx, hop) < |s| && Hits(s[FirstHit(s, bx, hop)], bx, hop)
    ensures forall k :: 0 <= k < FirstHit(s, bx, hop) ==> !Hits(s[k], bx, hop)
    decreases |s|
  {
    if !Hits(s[0], bx, hop) {
      var f := FirstHit(s[1..], bx, hop);
      FirstHitLowest(s[1..], bx, hop);
      assert s[1 + f] == s[1..][f];
      forall k | 1 <= k < 1 + f
        ensures !Hits(s[k], bx, hop)
      {
        assert s[k] == s[1..][k - 1];
      }
    }
  }

  /** A hitting rock with no hitting rock below it is FirstHit. */
  lemma {:induction false} FirstHitAt(s: seq<Item>, j: nat, bx: real, hop: real)
    requires j < |s| && Hits(s[j], bx, hop)
    requires forall k :: 0 <= k < j ==> !Hits(s[k], bx, hop)
    ensures FirstHit(s, bx, hop) == j
    decreases j
  {
    if j > 0 {
      assert !Hits(s[0], bx, hop);
      forall k | 0 <= k < j - 1
        ensures !Hits(s[1..][k], bx, hop)
      {
        assert s[1..][k] == s[k + 1];
      }
      assert s[1..][j - 1] == s[j];
      FirstHitAt(s[1..], j - 1, bx, hop);
    }
  }

  /** A list with no hit has no rock that hits at any index. */
  lemma {:induction false} NoHitsAt(p: seq<Item>, bx: real, hop: real)
    requires HitCount(p, bx, hop) == 0
    ensures forall k :: 0 <= k < |p| ==> !Hits(p[k], bx, hop)
  {
    if p != [] {
      NoHitsAt(p[1..], bx, hop);
      forall k | 1 <= k < |p|
        ensures !Hits(p[k], bx, hop)
      {
        assert p[k] == p[1..][k - 1];
      }
    }
  }

  /** No hit below j in a prefix is no hit below j in the whole list. */
  lemma NoHitsBelowInPrefix(s: seq<Item>, n: nat, j: nat, bx: real, hop: real)
    requires j <= n <= |s|
    requires forall k :: 0 <= k < j ==> !Hits(s[..n][k], bx, hop)
    ensures forall k :: 0 <= k < j ==> !Hits(s[k], bx, hop)
  {
    forall k | 0 <= k < j
      ensures !Hits(s[k], bx, hop)
    {
      assert s[..n][k] == s[k];
    }
  }

  /** On a hit the high score is exactly the larger of the old high score and the score
      the loop has reached at the lowest-index rock that hits, the last one it meets:
      the start score plus ten per carrot above that rock. Carrots collected below it
      are not in it. */
  lemma {:induction false} SweepHighScore(s: seq<Item>, a: Sweeping, bx: real, hop: real, rand: nat -> real)
    ensures HitCount(s, bx, hop) > 0 ==>
      Sweep(s, a, bx, hop, rand).highScore
      == Best(a.highScore, a.score + CarrotPoints * Collected(s[FirstHit(s, bx, hop) + 1..], bx, hop))
    decreases |s|
  {
    if s != [] {
      var n := |s| - 1;
      var b := Handle(s[n], a, bx, hop, rand);
      if HitCount(s[..n], bx, hop) > 0 {
        SweepHighScore(s[..n], b, bx, hop, rand);
        LastCounts(s, bx, hop);
        HighScoreFromEarlierHit(s, a, b, bx, hop, rand);
      } else if HitCount(s, bx, hop) > 0 {
        HighScoreFromLastHit(s, a, bx, hop, rand);
      }
    }
  }

  /** The inductive step of SweepHighScore when a lower-index rock also hits: that rock is
      FirstHit of both the rest and the whole list. */
  lemma HighScoreFromEarlierHit(s: seq<Item>, a: Sweeping, b: Sweeping, bx: real, hop: real, rand: nat -> real)
    requires s != [] && b == Handle(s[|s| - 1], a, bx, hop, rand)
    requires HitCount(s[..|s| - 1], bx, hop) > 0 && HitCount(s, bx, hop) > 0
    requires var p := s[..|s| - 1];
      Sweep(p, b, bx, hop, rand).highScore
      == Best(b.highScore, b.score + CarrotPoints * Collected(p[FirstHit(p, bx, hop) + 1..], bx, hop))
    ensures Sweep(s, a, bx, hop, rand).highScore
         == Best(a.highScore, a.score + CarrotPoints * Collected(s[FirstHit(s, bx, hop) + 1..], bx, hop))
  {
    var n := |s| - 1;
    var j := FirstHit(s[..n], bx, hop);
    FirstHitLowest(s[..n], bx, hop);
    NoHitsBelowInPrefix(s, n, j, bx, hop);
    assert s[..n][j] == s[j];
    FirstHitAt(s, j, bx, hop);
    assert Sweep(s, a, bx, hop, rand).highScore == Sweep(s[..n], b, bx, hop, rand).highScore;
    HandleScores(s[n], a, bx, hop, rand);
    ScoreAtHitAfterLast(s, a, b, j, bx, hop);
  }

  /** What one iteration does to the score, the high score and the run flag. */
  lemma HandleScores(it: Item, a: Sweeping, bx: real, hop: real, rand: nat -> real)
    ensures var b := Handle(it, a, bx, hop, rand);
      && b.score == a.score + (if Collects(it, bx, hop) then CarrotPoints else 0)
      && b.highScore == (if Hits(it, bx, hop) then Best(a.highScore, a.score) else a.highScore)
      && b.running == (a.running && !Hits(it, bx, hop))
  {
  }

  /** Handling the last item first changes the high score taken at an earlier rock j only
      through the carrot it may add. */
  lemma ScoreAtHitAfterLast(s: seq<Item>, a: Sweeping, b: Sweeping, j: nat, bx: real, hop: real)
    requires j < |s| - 1
    requires b.score == a.score + (if Collects(s[|s| - 1], bx, hop) then CarrotPoints else 0)
    requires b.highScore == (if Hits(s[|s| - 1], bx, hop) then Best(a.highScore, a.score) else a.highScore)
    ensures Best(b.highScore, b.score + CarrotPoints * Collected(s[..|s| - 1][j + 1..], bx, hop))
         == Best(a.highScore, a.score + CarrotPoints * Collected(s[j + 1..], bx, hop))
  {
    var n := |s| - 1;
    assert s[..n][j + 1..] == s[j + 1..n];
    assert s[j + 1..] == s[j + 1..n] + [s[n]];
    CollectedSnoc(s[j + 1..n], s[n], bx, hop);
  }

  /** The inductive step of SweepHighScore when the last item is the only rock that hits. */
  lemma HighScoreFromLastHit(s: seq<Item>, a: Sweeping, bx: real, hop: real, rand: nat -> real)
    requires s != [] && HitCount(s, bx, hop) > 0 && HitCount(s[..|s| - 1], bx, hop) == 0
    ensures Sweep(s, a, bx, hop, rand).highScore
         == Best(a.highScore, a.score + CarrotPoints * Collected(s[FirstHit(s, bx, hop) + 1..], bx, hop))
  {
    var n := |s| - 1;
    LastCounts(s, bx, hop);
    NoHitsAt(s[..n], bx, hop);
    NoHitsBelowInPrefix(s, n, n, bx, hop);
    FirstHitAt(s, n, bx, hop);
    var b := Handle(s[n], a, bx, hop, rand);
    assert Sweep(s, a, bx, hop, rand) == Sweep(s[..n], b, bx, hop, rand);
    SweepOutcome(s[..n], b, bx, hop, rand);
    assert s[n + 1..] == [];
  }

  /** Two rocks with a carrot between them, all meeting the bunny: the lower rock is met
      last, after the carrot, so the high score it takes includes the carrot's ten points. */
  lemma LowestRockSetsHighScore(rand: nat -> real)
    ensures var carrot := Item(200.0, 600.0, ItemSize, ItemSize, Carrot, ItemSpeed);
      var rock := Item(200.0, 600.0, ItemSize, ItemSize, Rock, ItemSpeed);
      Sweep([rock, carrot, rock], Sweeping([], 0, 0, true, [], 0), 200.0, 0.0, rand).highScore
      == CarrotPoints
  {
    var carrot := Item(200.0, 600.0, ItemSize, ItemSize, Carrot, ItemSpeed);
    var rock := Item(200.0, 600.0, ItemSize, ItemSize, Rock, ItemSpeed);
    var s := [rock, carrot, rock];
    assert Hits(rock, 200.0, 0.0) && Collects(carrot, 200.0, 0.0) && !Collects(rock, 200.0, 0.0);
    assert FirstHit(s, 200.0, 0.0) == 0;
    assert s[1..] == [carrot, rock] && [carrot, rock][1..] == [rock] && [rock][1..] == [];
    assert Collected([rock], 200.0, 0.0) == 0;
    assert Collected([carrot, rock], 200.0, 0.0) == 1;
    SweepHighScore(s, Sweeping([], 0, 0, true, [], 0), 200.0, 0.0, rand);
  }

  /** A rock hit does not end the loop: a carrot below it in the list that also meets the
      bunny is still collected in the same tick, after the high score was taken. */
  lemma RockThenCarrotSameTick(rand: nat -> real)
    ensures var carrot := Item(200.0, 600.0, ItemSize, ItemSize, Carrot, ItemSpeed);
      var rock := Item(200.0, 600.0, ItemSize, ItemSize, Rock, ItemSpeed);
      var r := Sweep([carrot, rock], Sweeping([], 0, 0, true, [], 0), 200.0, 0.0, rand);
      && !r.running && r.score == CarrotPoints && r.highScore == 0
      && r.kept == [Fall(rock)] && |r.particles| == 2 * BurstSize
  {
    var carrot := Item(200.0, 600.0, ItemSize, ItemSize, Carrot, ItemSpeed);
    var rock := Item(200.0, 600.0, ItemSize, ItemSize, Rock, ItemSpeed);
    var a := Sweeping([], 0, 0, true, [], 0);
    assert Hits(rock, 200.0, 0.0) && Collects(carrot, 200.0, 0.0);
    var b := Handle(rock, a, 200.0, 0.0, rand);
    var c := Handle(carrot, b, 200.0, 0.0, rand);
    assert !b.running && b.highScore == 0 && b.kept == [Fall(rock)];
    assert c.score == CarrotPoints && c.kept == [Fall(rock)] && !c.running;
    assert [carrot, rock][..1] == [carrot];
    assert [carrot][..0] == [];
    assert Sweep([carrot], b, 200.0, 0.0, rand) == Sweep([], c, 200.0, 0.0, rand) == c;
    assert Sweep([carrot, rock], a, 200.0, 0.0, rand) == Sweep([carrot], b, 200.0, 0.0, rand);
  }
}
