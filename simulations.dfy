/** The simulation driver (main.js): spawning a particle, the zoom clamp and
    the frame-time clamp.  The canvas, the DOM and the animation loop are not
    modelled. */
module Simulations {
  import opened Vectors
  import opened Particles
  import opened Physics
  import opened Wrappers

  const DefaultMass: real := 10.0
  const MinMass: real := 1.0
  const MinZoom: real := 1.0
  const MaxZoom: real := 3.0
  const MaxFrameTime: real := 0.1

  /** The optional fields of `addParticle`'s `options`; a missing one is
      `None`, as for the source's `??`. */
  datatype Options = Options(mass: Option<real>, charge: Option<real>, spin: Option<real>)

  /** `base + (r - 0.5) * base * 0.2`: the base moved by up to a tenth of
      itself, for a draw `r` of `Math.random()`. */
  function Jitter(base: real, r: real): real {
    base + (r - 0.5) * base * 0.2
  }

  /** The spawn mass: the jittered base, but never below 1. */
  function SpawnMass(base: real, r: real): (m: real)
    ensures MinMass <= m
    ensures Jitter(base, r) < MinMass ==> m == MinMass
    ensures MinMass <= Jitter(base, r) ==> m == Jitter(base, r)
  {
    if Jitter(base, r) < MinMass then MinMass else Jitter(base, r)
  }

  /** The spawn charge or spin: a zero base stays exactly zero, any other is
      jittered. */
  function SpawnQuantity(base: real, r: real): (q: real)
    ensures base == 0.0 ==> q == 0.0
  {
    if base != 0.0 then Jitter(base, r) else 0.0
  }

  /** For a draw in `[0, 1)` the jitter stays within a tenth of the base. */
  lemma {:induction false} JitterWithinTenPercent(base: real, r: real)
    requires 0.0 <= r < 1.0
    ensures Abs(Jitter(base, r) - base) <= Abs(base) / 10.0
  {
    var d := r - 0.5;
    assert -0.5 <= d < 0.5;
    assert Jitter(base, r) - base == d * base * 0.2;
    if 0.0 <= base {
      assert -0.5 * base <= d * base <= 0.5 * base;
    } else {
      assert 0.5 * base <= d * base <= -0.5 * base;
    }
  }

  /** Charge and spin land within a tenth of a non-zero base, and at exactly
      zero for a zero base; the mass is at least 1 and, unless clamped,
      within a tenth of its base. */
  lemma {:induction false} SpawnWithinTenPercent(base: real, r: real)
    requires 0.0 <= r < 1.0
    ensures Abs(SpawnQuantity(base, r) - base) <= Abs(base) / 10.0
    ensures SpawnMass(base, r) == MinMass || Abs(SpawnMass(base, r) - base) <= Abs(base) / 10.0
  {
    JitterWithinTenPercent(base, r);
  }

  /** With no options the bases are mass 10, charge 0 and spin 0: the mass
      lands in `[9, 11)` and charge and spin are exactly zero. */
  lemma {:induction false} DefaultSpawn(draws: (real, real, real))
    requires 0.0 <= draws.0 < 1.0
    ensures var o := Options(None, None, None);
      9.0 <= SpawnMass(o.mass.GetOr(DefaultMass), draws.0) < 11.0 &&
      SpawnQuantity(o.charge.GetOr(0.0), draws.1) == 0.0 &&
      SpawnQuantity(o.spin.GetOr(0.0), draws.2) == 0.0
  {
    assert Jitter(DefaultMass, draws.0) == 10.0 + (draws.0 - 0.5) * 2.0;
  }

  /** `Math.min(Math.max(zoom * factor, 1), 3)`. */
  function ZoomClamped(zoom: real, factor: real): (z: real)
    ensures MinZoom <= z <= MaxZoom
    ensures MinZoom <= zoom * factor <= MaxZoom ==> z == zoom * factor
    ensures zoom * factor < MinZoom ==> z == MinZoom
    ensures MaxZoom < zoom * factor ==> z == MaxZoom
  {
    var z := if zoom * factor < MinZoom then MinZoom else zoom * factor;
    if z < MaxZoom then z else MaxZoom
  }

  /** `Math.min(rawDt, 0.1) * speedScale`: a long frame counts as a tenth of
      a second. */
  function FrameStep(rawDt: real, speedScale: real): (dt: real)
    ensures 0.0 <= speedScale ==> dt <= MaxFrameTime * speedScale
    ensures rawDt <= MaxFrameTime ==> dt == rawDt * speedScale
  {
    (if rawDt < MaxFrameTime then rawDt else MaxFrameTime) * speedScale
  }

  /** The launch velocity of `addParticle` and its momentum: the speed cap
      and Lorentz factor of `setMomentumFromVel`, written out again in the
      source. */
  method Launch(vx: real, vy: real, mass: real, root: real -> real) returns (vel: Vec, momentum: Vec)
    requires IsSqrt(root)
    ensures vel == Capped(Vec(vx, vy), root)
    ensures momentum == Momentum(vel, mass, root)
  {
    var speedSq := vx * vx + vy * vy;
    assert speedSq == Vec(vx, vy).MagSq();
    if speedSq < 1.0 {
      SqrtPositive(root, 1.0 - speedSq);
      var gamma := 1.0 / root(1.0 - speedSq);
      vel := Vec(vx, vy);
      momentum := Vec(vx * gamma * mass, vy * gamma * mass);
    } else {
      SqrtPositive(root, speedSq);
      var s := SpeedCap / root(speedSq);
      var cvx, cvy := vx * s, vy * s;
      vel := Vec(cvx, cvy);
      assert vel == Capped(Vec(vx, vy), root);
      assert 1.0 - vel.MagSq() == 1.0 - SpeedCap * SpeedCap;
      SqrtPositive(root, 1.0 - SpeedCap * SpeedCap);
      var gamma := 1.0 / root(1.0 - SpeedCap * SpeedCap);
      momentum := Vec(cvx * gamma * mass, cvy * gamma * mass);
    }
  }

  /** The jittered mass, charge and spin of `addParticle`. */
  method SpawnFields(options: Options, draws: (real, real, real)) returns (mass: real, charge: real, spin: real)
    ensures mass == SpawnMass(options.mass.GetOr(DefaultMass), draws.0)
    ensures charge == SpawnQuantity(options.charge.GetOr(0.0), draws.1)
    ensures spin == SpawnQuantity(options.spin.GetOr(0.0), draws.2)
  {
    var baseMass := options.mass.GetOr(DefaultMass);
    mass := baseMass + (draws.0 - 0.5) * baseMass * 0.2;
    mass := if mass < MinMass then MinMass else mass;
    var baseCharge := options.charge.GetOr(0.0);
    charge := if baseCharge != 0.0 then baseCharge + (draws.1 - 0.5) * baseCharge * 0.2 else 0.0;
    var baseSpin := options.spin.GetOr(0.0);
    spin := if baseSpin != 0.0 then baseSpin + (draws.2 - 0.5) * baseSpin * 0.2 else 0.0;
  }

  /** The state of a particle `addParticle` has just made: the given
      position and id, no acceleration; the spawn mass, charge and spin; radius and colour
      refreshed from them; the launch velocity and its momentum. */
  ghost predicate Spawned(p: Particle, id: int, x: real, y: real, vx: real, vy: real, options: Options,
                          draws: (real, real, real), root: real -> real)
    requires IsSqrt(root)
    reads p
  {
    p.id == id && p.pos == Vec(x, y) && p.acc == Zero &&
    p.mass == SpawnMass(options.mass.GetOr(DefaultMass), draws.0) &&
    p.charge == SpawnQuantity(options.charge.GetOr(0.0), draws.1) &&
    p.spin == SpawnQuantity(options.spin.GetOr(0.0), draws.2) &&
    p.radius == root(p.mass) * 3.0 && p.color == ColorOf(p.charge) &&
    p.vel == Capped(Vec(vx, vy), root) && p.momentum == Momentum(p.vel, p.mass, root)
  }

  /** The particle `addParticle` builds, from the values it computed: a
      default particle whose mass, charge and spin are then overwritten,
      its colour refreshed, and its velocity and momentum set. */
  method NewParticle(id: int, x: real, y: real, mass: real, charge: real, spin: real,
                     vel: Vec, momentum: Vec, root: real -> real) returns (p: Particle)
    ensures fresh(p) && p.id == id && p.pos == Vec(x, y) && p.acc == Zero
    ensures p.mass == mass && p.charge == charge && p.spin == spin
    ensures p.radius == root(mass) * 3.0 && p.color == ColorOf(charge)
    ensures p.vel == vel && p.momentum == momentum
  {
    p := new Particle(id, x, y, DefaultMass, 0.0, root);
    p.mass, p.charge, p.spin := mass, charge, spin;
    p.UpdateColor(root);
    p.vel, p.momentum := vel, momentum;
  }

  class Simulation {
    const particles: ParticleList
    var zoom: real
    var speedScale: real
    var lastTime: real

    /** The modelled part of `new Simulation()`: no particles, zoom 1, speed
        scale 20, clock at 0. */
    constructor ()
      ensures fresh(particles) && particles.items == []
      ensures zoom == 1.0 && speedScale == 20.0 && lastTime == 0.0
    {
      particles := new ParticleList();
      zoom := 1.0;
      speedScale := 20.0;
      lastTime := 0.0;
    }

    /** `addParticle(x, y, vx, vy, options)`, with the new particle's `id`
        and the three draws of `Math.random()` as parameters.  Exactly one
        particle is appended; the others are untouched. */
    method AddParticle(id: int, x: real, y: real, vx: real, vy: real, options: Options,
                       draws: (real, real, real), root: real -> real)
      requires IsSqrt(root)
      modifies particles
      ensures |particles.items| == |old(particles.items)| + 1
      ensures particles.items[..|old(particles.items)|] == old(particles.items)
      ensures var p := particles.items[|old(particles.items)|];
        fresh(p) && Spawned(p, id, x, y, vx, vy, options, draws, root)
    {
      var mass, charge, spin := SpawnFields(options, draws);
      var vel, momentum := Launch(vx, vy, mass, root);
      var p := NewParticle(id, x, y, mass, charge, spin, vel, momentum, root);
      particles.items := particles.items + [p];
    }

    /** `zoomBy(factor)`: the zoom stays within `[1, 3]`. */
    method ZoomBy(factor: real)
      modifies this`zoom
      ensures zoom == ZoomClamped(old(zoom), factor)
    {
      var z := zoom * factor;
      z := if z < MinZoom then MinZoom else z;
      zoom := if z < MaxZoom then z else MaxZoom;
    }

    /** The frame time of `loop(timestamp)`, in milliseconds: the step
        handed to the physics is at most `0.1 * speedScale`. */
    method FrameTime(timestamp: real) returns (dt: real)
      modifies this`lastTime
      ensures dt == FrameStep((timestamp - old(lastTime)) / 1000.0, speedScale)
      ensures lastTime == timestamp
    {
      var rawDt := (timestamp - lastTime) / 1000.0;
      lastTime := timestamp;
      dt := (if rawDt < MaxFrameTime then rawDt else MaxFrameTime) * speedScale;
    }
  }
}
