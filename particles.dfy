/** The particle effect: bursts of eight particles and their per-tick fade. */
module Particles {
  import opened Entities

  /** The draws a random source gives lie in [0, 1). */
  ghost predicate UnitDraws(rand: nat -> real) {
    forall n: nat :: 0.0 <= rand(n) < 1.0
  }

  /** A draw in [0, 1) mapped to a velocity component in [-2, 2). */
  function Velocity(draw: real): real {
    (draw - 0.5) * 4.0
  }

  /** One particle of a burst, taking draws n (vx) and n + 1 (vy). */
  function Spark(x: real, y: real, color: string, rand: nat -> real, n: nat): Particle {
    Particle(x, y, Velocity(rand(n)), Velocity(rand(n + 1)), 1.0, color)
  }

  /** The particles one createParticles call appends, drawing from position `from` on. */
  function Burst(x: real, y: real, color: string, rand: nat -> real, from: nat): (r: seq<Particle>)
    ensures |r| == BurstSize
    ensures forall k :: 0 <= k < |r| ==>
      r[k].x == x && r[k].y == y && r[k].life == 1.0 && r[k].color == color
    ensures UnitDraws(rand) ==> forall k :: 0 <= k < |r| ==>
      -2.0 <= r[k].vx < 2.0 && -2.0 <= r[k].vy < 2.0
  {
    seq(BurstSize, k requires 0 <= k < BurstSize => Spark(x, y, color, rand, from + 2 * k))
  }

  /** One particle after one update: moved by its velocity, one step less life. */
  function Age(p: Particle): Particle {
    p.(x := p.x + p.vx, y := p.y + p.vy, life := p.life - LifeStep)
  }

  /** What one update leaves of a particle: the aged particle, or nothing once its life is spent. */
  function Survivor(p: Particle): seq<Particle> {
    var q := Age(p);
    if q.life <= 0.0 then [] else [q]
  }

  /** The particle list after one updateParticles call. */
  function Advanced(ps: seq<Particle>): (r: seq<Particle>)
    ensures |r| <= |ps|
    ensures forall q :: q in r ==> q.life > 0.0
  {
    if ps == [] then [] else Survivor(ps[0]) + Advanced(ps[1..])
  }

  /** Read from index i on, the update handles the particle at i and then the rest. */
  lemma AdvancedFrom(ps: seq<Particle>, i: nat)
    requires i < |ps|
    ensures Advanced(ps[i..]) == Survivor(ps[i]) + Advanced(ps[i + 1..])
  {
    assert ps[i..][0] == ps[i];
    assert ps[i..][1..] == ps[i + 1..];
  }

  /** The update acts on each particle alone, so it distributes over concatenation:
      survivors keep their relative order. */
  lemma {:induction false} AdvancedAppend(a: seq<Particle>, b: seq<Particle>)
    ensures Advanced(a + b) == Advanced(a) + Advanced(b)
  {
    if a == [] {
      assert a + b == b;
    } else {
      assert (a + b)[0] == a[0];
      assert (a + b)[1..] == a[1..] + b;
      AdvancedAppend(a[1..], b);
    }
  }

  /** Exactly the particles whose life is still positive after aging survive,
      and every survivor is an aged original. */
  lemma {:induction false} AdvancedMembers(ps: seq<Particle>, q: Particle)
    ensures q in Advanced(ps) <==> exists p :: p in ps && q == Age(p) && q.life > 0.0
  {
    if ps != [] {
      AdvancedMembers(ps[1..], q);
      if q in Advanced(ps[1..]) {
        var p :| p in ps[1..] && q == Age(p) && q.life > 0.0;
        assert p in ps;
      }
      if exists p :: p in ps && q == Age(p) && q.life > 0.0 {
        var p :| p in ps && q == Age(p) && q.life > 0.0;
        if p != ps[0] {
          assert p in ps[1..];
        }
      }
    }
  }

  /** When no particle is about to expire, an update ages each one in place. */
  lemma {:induction false} AdvancedWhenNoneExpire(ps: seq<Particle>)
    requires forall i :: 0 <= i < |ps| ==> ps[i].life > LifeStep
    ensures |Advanced(ps)| == |ps|
    ensures forall i :: 0 <= i < |ps| ==> Advanced(ps)[i] == Age(ps[i])
  {
    if ps != [] {
      AdvancedWhenNoneExpire(ps[1..]);
    }
  }

  /** A particle after n updates, had it never been removed. */
  function AgedTimes(p: Particle, n: nat): Particle {
    if n == 0 then p else Age(AgedTimes(p, n - 1))
  }

  /** The particle list after n consecutive updateParticles calls. */
  function AdvancedTimes(ps: seq<Particle>, n: nat): seq<Particle>
    decreases n
  {
    if n == 0 then ps else AdvancedTimes(Advanced(ps), n - 1)
  }

  lemma {:induction false} AgedLife(p: Particle, n: nat)
    ensures AgedTimes(p, n).life == p.life - (n as real) * LifeStep
  {
    if n > 0 {
      AgedLife(p, n - 1);
    }
  }

  /** A particle born with life 1.0 survives 19 updates and is removed by the 20th. */
  lemma {:induction false} FreshParticleLifetime(p: Particle, n: nat)
    requires p.life == 1.0
    ensures n < 20 ==> AdvancedTimes([p], n) == [AgedTimes(p, n)]
    ensures n == 20 ==> AdvancedTimes([p], n) == []
  {
    if 0 < n <= 20 {
      FreshParticleLifetime(p, n - 1);
      var q := AgedTimes(p, n - 1);
      AgedLife(p, n);
      assert Advanced([q]) == Survivor(q) + Advanced([q][1..]);
      assert [q][1..] == [];
      calc {
        AdvancedTimes([p], n);
        AdvancedTimes(Advanced([p]), n - 1);
        { AdvancedTimesShift([p], n - 1); }
        Advanced(AdvancedTimes([p], n - 1));
        Advanced([q]);
        Survivor(q);
      }
    }
  }

  /** n updates followed by one more are n + 1 updates. */
  lemma {:induction false} AdvancedTimesShift(ps: seq<Particle>, n: nat)
    ensures AdvancedTimes(Advanced(ps), n) == Advanced(AdvancedTimes(ps, n))
    decreases n
  {
    if n > 0 {
      AdvancedTimesShift(Advanced(ps), n - 1);
    }
  }
}
