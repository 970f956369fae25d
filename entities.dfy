/** The fixed dimensions of the playing field and the two kinds of value the
    simulation moves around: falling items and effect particles. */
module Entities {

  // The canvas size lives in the page markup, not in script.js; the model assumes
  // 480 x 640. Most of what follows needs only CanvasWidth >= BunnyWidth;
  // Rules.SpawnedItemFallsAtOnce also needs the canvas tall enough (at least 46)
  // that a new item at y = -29 misses the bunny's box.
  const CanvasWidth: real := 480.0
  const CanvasHeight: real := 640.0

  const BunnyWidth: real := 32.0
  const BunnyHeight: real := 32.0
  const BunnySpeed: real := 5.0
  /** The bunny's fixed resting row (its y never changes; only the hop offset moves its box). */
  const BunnyY: real := CanvasHeight - 40.0
  /** Where every run puts the bunny: the middle of the canvas. */
  const BunnyHome: real := CanvasWidth / 2.0 - 16.0

  const ItemSize: real := 32.0
  /** Base fall speed; the score adds score / 100 when an item is created. */
  const ItemSpeed: real := 3.0
  /** One item is spawned on every tick whose new frame count is a multiple of this. */
  const SpawnRate: nat := 60
  /** Any draw above this makes the new item a carrot. */
  const CarrotThreshold: real := 0.3
  const CarrotPoints: nat := 10

  /** Particles per burst, and the draws a burst takes from the random source. */
  const BurstSize: nat := 8
  const BurstDraws: nat := 2 * BurstSize
  /** Life a particle loses on each update. */
  const LifeStep: real := 0.05

  const CarrotColor: string := "#ffa500"
  const RockColor: string := "#ff0000"

  const LeftKey: string := "ArrowLeft"
  const RightKey: string := "ArrowRight"
  const SpaceKey: string := "Space"

  datatype Kind = Carrot | Rock

  /** A falling item. Only y changes after creation. */
  datatype Item = Item(x: real, y: real, width: real, height: real, kind: Kind, speed: real)

  /** A short-lived coloured square; its life doubles as its opacity. */
  datatype Particle = Particle(x: real, y: real, vx: real, vy: real, life: real, color: string)

  /** The bunny's x lies inside the canvas. */
  predicate OnCanvas(x: real) {
    0.0 <= x <= CanvasWidth - BunnyWidth
  }

  /** The held keys applied as two independent deltas, left first. */
  function Move(x: real, left: bool, right: bool): real {
    var afterLeft := if left then x - BunnySpeed else x;
    if right then afterLeft + BunnySpeed else afterLeft
  }

  /** The two boundary tests of the update, in the source's order. */
  function Clamp(x: real): (r: real)
    ensures OnCanvas(r)
    ensures OnCanvas(x) ==> r == x
    ensures x < 0.0 ==> r == 0.0
    ensures x > CanvasWidth - BunnyWidth ==> r == CanvasWidth - BunnyWidth
  {
    var low := if x < 0.0 then 0.0 else x;
    if low + BunnyWidth > CanvasWidth then CanvasWidth - BunnyWidth else low
  }

  /** Strict axis-aligned overlap of the bunny's box with top-left corner (left, top)
      and an item's box; boxes that merely touch do not collide. */
  predicate Overlaps(left: real, top: real, it: Item) {
    && left < it.x + it.width
    && left + BunnyWidth > it.x
    && top < it.y + it.height
    && top + BunnyHeight > it.y
  }

  /** The larger of the high score and the score: what a game over keeps. */
  function Best(highScore: nat, score: nat): (r: nat)
    ensures r >= highScore && r >= score
    ensures r == highScore || r == score
  {
    if score > highScore then score else highScore
  }
}
