/** The discrete side of the physics step (src/physics.js): building the
    tree, the collision pair filter, the merge and bounce resolutions, the
    compaction of merged-away particles and the three boundary policies. */
module Physics {
  import opened Vectors
  import opened Particles
  import opened Quadtree
  import opened Wrappers

  /** The collision toggles of the interface: `'pass'`, `'merge'`, `'bounce'`. */
  datatype CollisionMode = Pass | Merge | Bounce

  /** The boundary toggles: `'despawn'`, `'loop'`, and `'bounce'` (walls). */
  datatype BoundaryMode = Despawn | Loop | Walls

  /** Constants the step hard-codes. */
  const TreeCapacity: nat := 4
  const DespawnLimit: real := 100.0
  const Friction: real := 0.4
  const SafeDistance: real := 0.0001
  const OverlapSlack: real := 0.25
  const SpeedCap: real := 0.99

  // ---------------------------------------------------------------------
  // Building the tree

  /** The box `update` gives the tree: centred on the view, with twice its
      width and height as half-extents. */
  function TreeBox(width: real, height: real): Rect {
    Rect(width / 2.0, height / 2.0, width * 2.0, height * 2.0)
  }

  /** The tree `update` builds: each particle inserted in turn into an
      empty tree over `b`. */
  function Built(s: seq<Particle>, b: Rect, P: Snapshot, fuel: nat): Tree {
    if s == [] then Leaf([])
    else InsertInto(Built(s[..|s| - 1], b, P, fuel), b, TreeCapacity, s[|s| - 1], P, fuel).0
  }

  /** The built tree keeps the tree invariant and holds no particle it was
      not given, and none more often than given. */
  lemma {:induction false} BuiltWf(s: seq<Particle>, b: Rect, P: Snapshot, fuel: nat)
    ensures Wf(Built(s, b, P, fuel), b, TreeCapacity, P)
    ensures Bag(Built(s, b, P, fuel)) <= multiset(s)
    decreases |s|
  {
    if s != [] {
      var init, last := s[..|s| - 1], s[|s| - 1];
      BuiltWf(init, b, P, fuel);
      InsertKeepsWf(Built(init, b, P, fuel), b, TreeCapacity, last, P, fuel);
      InsertElements(Built(init, b, P, fuel), b, TreeCapacity, last, P, fuel);
      assert s == init + [last];
    }
  }

  /** The first part of `update`: a fresh tree of capacity 4 over
      `TreeBox(width, height)`, every particle inserted, then the aggregates
      computed. */
  method BuildTree(particles: seq<Particle>, width: real, height: real, ghost P: Snapshot, fuel: nat)
    returns (qt: QuadTree)
    requires Current(P) && forall p :: p in particles ==> p in P
    ensures fresh(qt.Repr) && qt.Valid() && qt.Aggregated(P) && Current(P)
    ensures qt.boundary == TreeBox(width, height) && qt.capacity == TreeCapacity
    ensures qt.Model == Built(particles, TreeBox(width, height), P, fuel)
  {
    qt := new QuadTree(TreeBox(width, height), TreeCapacity);
    for i := 0 to |particles|
      invariant fresh(qt.Repr) && qt.Valid() && Current(P) && Known(qt.Model, P)
      invariant qt.boundary == TreeBox(width, height) && qt.capacity == TreeCapacity
      invariant qt.Model == Built(particles[..i], TreeBox(width, height), P, fuel)
    {
      assert particles[..i + 1][..i] == particles[..i];
      InsertKeepsKnown(qt.Model, qt.boundary, qt.capacity, particles[i], P, fuel);
      var _ := qt.Insert(particles[i], P, fuel);
    }
    assert particles[..|particles|] == particles;
    qt.CalculateMassDistribution(P);
  }

  // ---------------------------------------------------------------------
  // The pair filter of handleCollisions

  /** The tests `handleCollisions` makes before resolving `p1` against a
      candidate `p2` at distance `dist`: `p1` is alive, `p2` is another live
      particle with a larger id, and the two overlap. */
  predicate ShouldResolve(p1: Particle, p2: Particle, dist: real)
    reads p1, p2
  {
    p1.mass != 0.0 && p1 != p2 && p2.mass != 0.0 && p1.id < p2.id && dist < p1.radius + p2.radius
  }

  /** Each unordered pair is resolved from one side only. */
  lemma {:induction false} ResolvedFromOneSide(p1: Particle, p2: Particle, d1: real, d2: real)
    requires ShouldResolve(p1, p2, d1)
    ensures !ShouldResolve(p2, p1, d2)
  {
  }

  /** An id as the source holds it: `new Particle` never sets one, so it
      is `undefined` unless something assigns it. */
  datatype ScriptId = Unset | Number(n: int)

  /** `a >= b` on such ids: a comparison with `undefined` is false. */
  predicate AtLeast(a: ScriptId, b: ScriptId) {
    a.Number? && b.Number? && a.n >= b.n
  }

  /** The skip test of `handleCollisions` on ids as the source holds them:
      the pair passes unless it is one particle, a dead one, or out of order. */
  predicate PassesFilter(same: bool, m1: real, m2: real, id1: ScriptId, id2: ScriptId, dist: real, minDist: real) {
    !(same || m2 == 0.0 || AtLeast(id1, id2)) && m1 != 0.0 && dist < minDist
  }

  /** With the ids the source leaves unset, the order test never skips, so
      every overlapping live pair passes from both sides. */
  lemma {:induction false} UnsetIdsPassBothWays(m1: real, m2: real, dist: real, minDist: real)
    requires m1 != 0.0 && m2 != 0.0 && dist < minDist
    ensures PassesFilter(false, m1, m2, Unset, Unset, dist, minDist)
    ensures PassesFilter(false, m2, m1, Unset, Unset, dist, minDist)
  {
  }

  // ---------------------------------------------------------------------
  // resolveMerge

  /** What a merge reads from and writes to a particle. */
  datatype Lump = Lump(pos: Vec, momentum: Vec, mass: real, charge: real, spin: real)

  function LumpOf(p: Particle): Lump
    reads p
  {
    Lump(p.pos, p.momentum, p.mass, p.charge, p.spin)
  }

  /** The survivor of `resolveMerge`: masses, charges, spins and momenta
      add, and the position is the mass-weighted average. */
  function Merged(a: Lump, b: Lump): Lump
    requires a.mass + b.mass != 0.0
  {
    var total := a.mass + b.mass;
    Lump(Vec((a.pos.x * a.mass + b.pos.x * b.mass) / total, (a.pos.y * a.mass + b.pos.y * b.mass) / total),
         a.momentum.Plus(b.momentum), total, a.charge + b.charge, a.spin + b.spin)
  }

  /** A merge conserves mass, charge, spin and momentum, and the survivor
      carries the pair's whole mass moment, so the centre of mass stays put. */
  lemma {:induction false} MergeConserves(a: Lump, b: Lump)
    requires a.mass + b.mass != 0.0
    ensures var m := Merged(a, b);
      m.mass == a.mass + b.mass && m.charge == a.charge + b.charge && m.spin == a.spin + b.spin &&
      m.momentum.x == a.momentum.x + b.momentum.x && m.momentum.y == a.momentum.y + b.momentum.y &&
      m.pos.x * m.mass == a.pos.x * a.mass + b.pos.x * b.mass &&
      m.pos.y * m.mass == a.pos.y * a.mass + b.pos.y * b.mass
  {
    var total := a.mass + b.mass;
    DivTimes(a.pos.x * a.mass + b.pos.x * b.mass, total);
    DivTimes(a.pos.y * a.mass + b.pos.y * b.mass, total);
  }

  lemma DivTimes(n: real, d: real)
    requires d != 0.0
    ensures (n / d) * d == n
  {
  }

  /** `resolveMerge(p1, p2)`: `p1` becomes the merged particle, with its
      radius and colour refreshed; `p2` only loses its mass, which marks it
      for compaction.  The pair filter makes the two distinct. */
  method ResolveMerge(p1: Particle, p2: Particle, root: real -> real)
    requires p1 != p2 && p1.mass + p2.mass != 0.0
    modifies p1`pos, p1`momentum, p1`mass, p1`charge, p1`spin, p1`radius, p1`color, p2`mass
    ensures LumpOf(p1) == Merged(old(LumpOf(p1)), old(LumpOf(p2)))
    ensures p1.radius == root(p1.mass) * 3.0 && p1.color == ColorOf(p1.charge)
    ensures p2.mass == 0.0
  {
    var totalMass := p1.mass + p2.mass;
    var newPx := p1.momentum.x + p2.momentum.x;
    var newPy := p1.momentum.y + p2.momentum.y;
    var newX := (p1.pos.x * p1.mass + p2.pos.x * p2.mass) / totalMass;
    var newY := (p1.pos.y * p1.mass + p2.pos.y * p2.mass) / totalMass;
    var newCharge, newSpin := p1.charge + p2.charge, p1.spin + p2.spin;
    assert Lump(Vec(newX, newY), Vec(newPx, newPy), totalMass, newCharge, newSpin) == Merged(LumpOf(p1), LumpOf(p2));
    p1.mass := totalMass;
    p1.charge := newCharge;
    p1.spin := newSpin;
    p1.momentum := Vec(newPx, newPy);
    p1.pos := Vec(newX, newY);
    p1.UpdateColor(root);
    p2.mass := 0.0;
  }

  // ---------------------------------------------------------------------
  // resolveBounce

  /** What a bounce reads from and writes to a particle. */
  datatype Disc = Disc(pos: Vec, vel: Vec, momentum: Vec, mass: real, spin: real, radius: real)

  function DiscOf(p: Particle): Disc
    reads p
  {
    Disc(p.pos, p.vel, p.momentum, p.mass, p.spin, p.radius)
  }

  /** The centred random draws of the coincident case. */
  function Jitter(draw: Vec): Vec {
    Vec(draw.x - 0.5, draw.y - 0.5)
  }

  /** What the normal needs: a non-zero length to divide by. */
  predicate NormalDefined(dist: real, draw: Vec, root: real -> real) {
    dist == 0.0 ==> root(Jitter(draw).MagSq()) != 0.0
  }

  /** The normal of a contact at distance `dist` from `a` to `b`: the
      separation over the distance, or for coincident centres the two random
      draws, centred and normalised. */
  function Normal(a: Vec, b: Vec, dist: real, draw: Vec, root: real -> real): Vec
    requires NormalDefined(dist, draw, root)
  {
    if dist == 0.0 then
      var j := Jitter(draw);
      var m := root(j.MagSq());
      Vec(j.x / m, j.y / m)
    else
      Vec((b.x - a.x) / dist, (b.y - a.y) / dist)
  }

  /** The normal has unit length when `dist` is the distance between the
      centres and `root` is a square root. */
  lemma {:induction false} NormalIsUnit(a: Vec, b: Vec, dist: real, draw: Vec, root: real -> real)
    requires IsSqrt(root) && NormalDefined(dist, draw, root)
    requires dist == root(b.Minus(a).MagSq())
    ensures Normal(a, b, dist, draw, root).MagSq() == 1.0
  {
    if dist == 0.0 {
      var j := Jitter(draw);
      SqrtLaw(root, j.MagSq());
      NormalizedIsUnit(j, root(j.MagSq()));
    } else {
      var v := b.Minus(a);
      SqrtLaw(root, v.MagSq());
      NormalizedIsUnit(v, dist);
    }
  }

  /** The 1-D elastic collision along the normal. */
  function Elastic(m1: real, m2: real, v1n: real, v2n: real): (real, real)
    requires m1 + m2 != 0.0
  {
    ((v1n * (m1 - m2) + 2.0 * m2 * v2n) / (m1 + m2), (v2n * (m2 - m1) + 2.0 * m1 * v1n) / (m1 + m2))
  }

  /** The elastic update conserves momentum and kinetic energy along the
      normal. */
  lemma {:induction false} ElasticConserves(m1: real, m2: real, v1n: real, v2n: real)
    requires m1 + m2 != 0.0
    ensures var (u1, u2) := Elastic(m1, m2, v1n, v2n);
      m1 * u1 + m2 * u2 == m1 * v1n + m2 * v2n &&
      m1 * u1 * u1 + m2 * u2 * u2 == m1 * v1n * v1n + m2 * v2n * v2n
  {
    var (u1, u2) := Elastic(m1, m2, v1n, v2n);
    var M := m1 + m2;
    var a, b := v1n * (m1 - m2) + 2.0 * m2 * v2n, v2n * (m2 - m1) + 2.0 * m1 * v1n;
    DivTimes(a, M);
    DivTimes(b, M);
    assert u1 * M == a && u2 * M == b;
    assert (m1 * u1 + m2 * u2) * M == m1 * a + m2 * b;
    assert m1 * a + m2 * b == (m1 * v1n + m2 * v2n) * M;
    CancelFactor(m1 * u1 + m2 * u2, m1 * v1n + m2 * v2n, M);
    assert (u1 - u2) * M == a - b;
    assert a - b == (v2n - v1n) * M;
    CancelFactor(u1 - u2, v2n - v1n, M);
    EnergyFromRestitution(m1, m2, u1, u2, v1n, v2n);
  }

  lemma CancelFactor(x: real, y: real, k: real)
    requires k != 0.0 && x * k == y * k
    ensures x == y
  {
  }

  /** A momentum-conserving exchange that reverses the relative velocity
      conserves kinetic energy. */
  lemma {:induction false} EnergyFromRestitution(m1: real, m2: real, u1: real, u2: real, v1: real, v2: real)
    requires m1 * u1 + m2 * u2 == m1 * v1 + m2 * v2
    requires u1 - u2 == v2 - v1
    ensures m1 * u1 * u1 + m2 * u2 * u2 == m1 * v1 * v1 + m2 * v2 * v2
  {
    var k := m1 * (u1 - v1);
    assert m2 * (u2 - v2) == -k;
    assert m1 * u1 * u1 - m1 * v1 * v1 == k * (u1 + v1);
    assert m2 * u2 * u2 - m2 * v2 * v2 == -k * (u2 + v2);
    assert k * (u1 + v1) - k * (u2 + v2) == k * ((u1 - u2) + (v1 - v2));
  }

  /** Equal masses exchange their normal velocities. */
  lemma {:induction false} ElasticEqualMassesSwap(m: real, v1n: real, v2n: real)
    requires m != 0.0
    ensures Elastic(m, m, v1n, v2n) == (v2n, v1n)
  {
    var d := m + m;
    var a, b := v1n * (m - m) + 2.0 * m * v2n, v2n * (m - m) + 2.0 * m * v1n;
    assert a == v2n * d && b == v1n * d;
    TimesDiv(v2n, d);
    TimesDiv(v1n, d);
    assert Elastic(m, m, v1n, v2n) == (a / d, b / d);
  }

  lemma TimesDiv(n: real, d: real)
    requires d != 0.0
    ensures (n * d) / d == n
  {
  }

  /** The friction impulse: 0.4 times the slip of the contact surfaces
      times the reduced mass. */
  function Impulse(m1: real, m2: real, v1t: real, v2t: real, s1: real, s2: real, r1: real, r2: real): real
    requires m1 + m2 != 0.0
  {
    var surfaceV1 := v1t + s1 * r1;
    var surfaceV2 := v2t - s2 * r2;
    Friction * (surfaceV1 - surfaceV2) * ((m1 * m2) / (m1 + m2))
  }

  /** The impulse acts equally and oppositely along the tangent. */
  function Tangential(m1: real, m2: real, v1t: real, v2t: real, j: real): (real, real)
    requires m1 != 0.0 && m2 != 0.0
  {
    (v1t - j / m1, v2t + j / m2)
  }

  /** Whatever the impulse, tangential momentum is conserved. */
  lemma {:induction false} TangentialConserves(m1: real, m2: real, v1t: real, v2t: real, j: real)
    requires m1 != 0.0 && m2 != 0.0
    ensures var (u1, u2) := Tangential(m1, m2, v1t, v2t, j);
      m1 * u1 + m2 * u2 == m1 * v1t + m2 * v2t
  {
    DivTimes(j, m1);
    DivTimes(j, m2);
    assert m1 * (v1t - j / m1) == m1 * v1t - j;
    assert m2 * (v2t + j / m2) == m2 * v2t + j;
  }

  /** The velocity with normal part `vn` and tangential part `vt`. */
  function Compose(n: Vec, t: Vec, vn: real, vt: real): Vec {
    Vec(n.x * vn + t.x * vt, n.y * vn + t.y * vt)
  }

  /** `setMomentumFromVel`'s speed cap: a velocity at or above the speed of
      light, 1, is rescaled to 0.99 of it. */
  function Capped(v: Vec, root: real -> real): (c: Vec)
    requires IsSqrt(root)
    ensures c.MagSq() < 1.0
    ensures v.MagSq() < 1.0 ==> c == v
    ensures 1.0 <= v.MagSq() ==> c.MagSq() == SpeedCap * SpeedCap
  {
    if v.MagSq() >= 1.0 then
      SqrtPositive(root, v.MagSq());
      SqrtLaw(root, v.MagSq());
      var s := SpeedCap / root(v.MagSq());
      RescaledSpeed(v, root(v.MagSq()), s);
      Vec(v.x * s, v.y * s)
    else
      v
  }

  lemma {:induction false} RescaledSpeed(v: Vec, m: real, s: real)
    requires 0.0 < m && m * m == v.MagSq() && s == SpeedCap / m
    ensures Vec(v.x * s, v.y * s).MagSq() == SpeedCap * SpeedCap
  {
    assert Vec(v.x * s, v.y * s).MagSq() == s * s * v.MagSq();
    assert s * m == SpeedCap;
    assert s * s * (m * m) == SpeedCap * SpeedCap;
  }

  /** The relativistic momentum `γ·m·v` of a sub-light velocity. */
  function Momentum(c: Vec, mass: real, root: real -> real): Vec
    requires IsSqrt(root) && c.MagSq() < 1.0
  {
    SqrtPositive(root, 1.0 - c.MagSq());
    var gamma := 1.0 / root(1.0 - c.MagSq());
    Vec(c.x * gamma * mass, c.y * gamma * mass)
  }

  /** `(minDist - safeDist) / 2 + 0.25`: half the overlap plus a margin. */
  function Overlap(minDist: real, dist: real): real {
    var safeDist := if dist == 0.0 then SafeDistance else dist;
    (minDist - safeDist) / 2.0 + OverlapSlack
  }

  /** What `resolveBounce` needs to be defined: a square root, a direction
      for coincident centres, and non-zero masses and radii. */
  ghost predicate BounceDefined(a: Disc, b: Disc, dist: real, draw: Vec, root: real -> real) {
    IsSqrt(root) && NormalDefined(dist, draw, root) &&
    a.mass != 0.0 && b.mass != 0.0 && a.mass + b.mass != 0.0 && a.radius != 0.0 && b.radius != 0.0
  }

  /** A disc after the bounce: moved to `pos`, with the capped velocity
      composed of `un` and `ut`, the momentum of that velocity, and its spin
      reduced by the friction impulse `j`. */
  function After(d: Disc, pos: Vec, n: Vec, t: Vec, un: real, ut: real, j: real, root: real -> real): Disc
    requires IsSqrt(root) && d.mass * d.radius != 0.0
  {
    var c := Capped(Compose(n, t, un, ut), root);
    Disc(pos, c, Momentum(c, d.mass, root), d.mass, SpinAfter(d.spin, d.mass, d.radius, j), d.radius)
  }

  /** The impulse `j` at the rim of a disc of `mass` and `radius` takes
      `j / (mass * radius)` off its spin. */
  function SpinAfter(spin: real, mass: real, radius: real, j: real): real
    requires mass * radius != 0.0
  {
    spin - j / (mass * radius)
  }

  /** Both discs after an exchange along the normal `n`. */
  function Exchanged(a: Disc, b: Disc, n: Vec, minDist: real, dist: real, root: real -> real): (Disc, Disc)
    requires IsSqrt(root) && a.mass != 0.0 && b.mass != 0.0 && a.mass + b.mass != 0.0
    requires a.radius != 0.0 && b.radius != 0.0
  {
    var t := Vec(-n.y, n.x);
    var v1n, v1t, v2n, v2t := a.vel.Dot(n), a.vel.Dot(t), b.vel.Dot(n), b.vel.Dot(t);
    var (u1n, u2n) := Elastic(a.mass, b.mass, v1n, v2n);
    var j := Impulse(a.mass, b.mass, v1t, v2t, a.spin, b.spin, a.radius, b.radius);
    var (u1t, u2t) := Tangential(a.mass, b.mass, v1t, v2t, j);
    var k := Overlap(minDist, dist);
    (After(a, a.pos.Minus(n.Scale(k)), n, t, u1n, u1t, j, root),
     After(b, b.pos.Plus(n.Scale(k)), n, t, u2n, u2t, j, root))
  }

  /** `Exchanged` is made of the results of its three update rules. */
  lemma ExchangedFrom(a: Disc, b: Disc, n: Vec, minDist: real, dist: real, root: real -> real,
                      u1n: real, u2n: real, j: real, u1t: real, u2t: real)
    requires IsSqrt(root) && a.mass != 0.0 && b.mass != 0.0 && a.mass + b.mass != 0.0
    requires a.radius != 0.0 && b.radius != 0.0
    requires (u1n, u2n) == Elastic(a.mass, b.mass, a.vel.Dot(n), b.vel.Dot(n))
    requires j == Impulse(a.mass, b.mass, a.vel.Dot(Vec(-n.y, n.x)), b.vel.Dot(Vec(-n.y, n.x)), a.spin, b.spin, a.radius, b.radius)
    requires (u1t, u2t) == Tangential(a.mass, b.mass, a.vel.Dot(Vec(-n.y, n.x)), b.vel.Dot(Vec(-n.y, n.x)), j)
    ensures Exchanged(a, b, n, minDist, dist, root) ==
      (After(a, a.pos.Minus(n.Scale(Overlap(minDist, dist))), n, Vec(-n.y, n.x), u1n, u1t, j, root),
       After(b, b.pos.Plus(n.Scale(Overlap(minDist, dist))), n, Vec(-n.y, n.x), u2n, u2t, j, root))
  {
  }

  /** Everything `resolveBounce` computes: nothing when the pair is already
      separating along the normal, else both discs afterwards. */
  function Bounced(a: Disc, b: Disc, minDist: real, dist: real, draw: Vec, root: real -> real): Option<(Disc, Disc)>
    requires BounceDefined(a, b, dist, draw, root)
  {
    var n := Normal(a.pos, b.pos, dist, draw, root);
    if b.vel.Dot(n) - a.vel.Dot(n) > 0.0 then None
    else Some(Exchanged(a, b, n, minDist, dist, root))
  }

  /** A bounce moves the two centres by opposite amounts, so their midpoint
      stays put, keeps both below the speed of light and leaves the masses
      and radii alone. */
  lemma {:induction false} BounceKeepsMidpoint(a: Disc, b: Disc, minDist: real, dist: real, draw: Vec, root: real -> real)
    requires BounceDefined(a, b, dist, draw, root)
    ensures var r := Bounced(a, b, minDist, dist, draw, root);
      r.Some? ==>
        r.value.0.pos.Plus(r.value.1.pos) == a.pos.Plus(b.pos) &&
        r.value.0.vel.MagSq() < 1.0 && r.value.1.vel.MagSq() < 1.0 &&
        r.value.0.mass == a.mass && r.value.1.mass == b.mass && r.value.0.radius == a.radius && r.value.1.radius == b.radius
  {
  }

  /** The speed cap of `setMomentumFromVel`, on the composed velocity. */
  method CapSpeed(v0: Vec, root: real -> real) returns (v: Vec)
    requires IsSqrt(root)
    ensures v == Capped(v0, root)
  {
    v := v0;
    var speedSq := v.MagSq();
    if speedSq >= 1.0 {
      SqrtPositive(root, speedSq);
      var s := SpeedCap / root(speedSq);
      v := Vec(v.x * s, v.y * s);
    }
  }

  /** `setMomentumFromVel(p, vn, vt)`: compose the velocity from its normal
      and tangential parts, cap it, and set the momentum to match. */
  method SetMomentumFromVel(p: Particle, n: Vec, t: Vec, vn: real, vt: real, root: real -> real)
    requires IsSqrt(root)
    modifies p`momentum, p`vel
    ensures p.vel == Capped(Compose(n, t, vn, vt), root)
    ensures p.momentum == Momentum(p.vel, p.mass, root)
  {
    var v := CapSpeed(Compose(n, t, vn, vt), root);
    SqrtPositive(root, 1.0 - v.MagSq());
    var gamma := 1.0 / root(1.0 - v.MagSq());
    p.momentum := Vec(v.x * gamma * p.mass, v.y * gamma * p.mass);
    p.vel := v;
  }

  /** The contact normal of `resolveBounce`, from the two centres. */
  method ContactNormal(a: Vec, b: Vec, dist: real, draw: Vec, root: real -> real) returns (n: Vec)
    requires NormalDefined(dist, draw, root)
    ensures n == Normal(a, b, dist, draw, root)
  {
    var safeDist := if dist == 0.0 then SafeDistance else dist;
    if dist == 0.0 {
      var nx, ny := draw.x - 0.5, draw.y - 0.5;
      var m := root(Vec(nx, ny).MagSq());
      n := Vec(nx / m, ny / m);
    } else {
      n := Vec((b.x - a.x) / safeDist, (b.y - a.y) / safeDist);
    }
  }

  /** The new normal and tangential speeds and the friction impulse of a
      contact. */
  method Exchange(m1: real, m2: real, v1n: real, v1t: real, v2n: real, v2t: real,
                  s1: real, s2: real, r1: real, r2: real)
    returns (v1nFinal: real, v2nFinal: real, tangentialImpulse: real, v1tFinal: real, v2tFinal: real,
             spin1: real, spin2: real)
    requires m1 != 0.0 && m2 != 0.0 && m1 + m2 != 0.0 && r1 != 0.0 && r2 != 0.0
    ensures (v1nFinal, v2nFinal) == Elastic(m1, m2, v1n, v2n)
    ensures tangentialImpulse == Impulse(m1, m2, v1t, v2t, s1, s2, r1, r2)
    ensures (v1tFinal, v2tFinal) == Tangential(m1, m2, v1t, v2t, tangentialImpulse)
    ensures spin1 == SpinAfter(s1, m1, r1, tangentialImpulse) && spin2 == SpinAfter(s2, m2, r2, tangentialImpulse)
  {
    var mSum := m1 + m2;
    v1nFinal := (v1n * (m1 - m2) + 2.0 * m2 * v2n) / mSum;
    v2nFinal := (v2n * (m2 - m1) + 2.0 * m1 * v1n) / mSum;
    var surfaceV1 := v1t + s1 * r1;
    var surfaceV2 := v2t - s2 * r2;
    var effectiveMass := (m1 * m2) / mSum;
    tangentialImpulse := Friction * (surfaceV1 - surfaceV2) * effectiveMass;
    v1tFinal := v1t - tangentialImpulse / m1;
    v2tFinal := v2t + tangentialImpulse / m2;
    spin1 := s1 - tangentialImpulse / (m1 * r1);
    spin2 := s2 - tangentialImpulse / (m2 * r2);
  }

  /** `resolveBounce(p1, p2, minDist, dist)`, with the two random draws of
      the coincident case as `draw` and `Math.sqrt` as `root`. */
  method ResolveBounce(p1: Particle, p2: Particle, minDist: real, dist: real, draw: Vec, root: real -> real)
    requires p1 != p2 && BounceDefined(DiscOf(p1), DiscOf(p2), dist, draw, root)
    modifies p1`pos, p1`vel, p1`momentum, p1`spin, p2`pos, p2`vel, p2`momentum, p2`spin
    ensures var r := Bounced(old(DiscOf(p1)), old(DiscOf(p2)), minDist, dist, draw, root);
      if r.None? then DiscOf(p1) == old(DiscOf(p1)) && DiscOf(p2) == old(DiscOf(p2))
      else DiscOf(p1) == r.value.0 && DiscOf(p2) == r.value.1
  {
    ghost var a, b := DiscOf(p1), DiscOf(p2);
    var safeDist := if dist == 0.0 then SafeDistance else dist;
    var n := ContactNormal(p1.pos, p2.pos, dist, draw, root);
    var t := Vec(-n.y, n.x);
    var v1n, v1t := p1.vel.Dot(n), p1.vel.Dot(t);
    var v2n, v2t := p2.vel.Dot(n), p2.vel.Dot(t);
    if v2n - v1n > 0.0 {
      return;
    }
    assert Bounced(a, b, minDist, dist, draw, root) == Some(Exchanged(a, b, n, minDist, dist, root));
    var v1nFinal, v2nFinal, j, v1tFinal, v2tFinal, spin1, spin2 :=
      Exchange(p1.mass, p2.mass, v1n, v1t, v2n, v2t, p1.spin, p2.spin, p1.radius, p2.radius);
    p1.spin := spin1;
    p2.spin := spin2;
    SetMomentumFromVel(p1, n, t, v1nFinal, v1tFinal, root);
    SetMomentumFromVel(p2, n, t, v2nFinal, v2tFinal, root);
    var overlap := (minDist - safeDist) / 2.0 + OverlapSlack;
    p1.pos := p1.pos.Minus(n.Scale(overlap));
    p2.pos := p2.pos.Plus(n.Scale(overlap));
    assert overlap == Overlap(minDist, dist);
    ExchangedFrom(a, b, n, minDist, dist, root, v1nFinal, v2nFinal, j, v1tFinal, v2tFinal);
    assert DiscOf(p1) == After(a, a.pos.Minus(n.Scale(overlap)), n, t, v1nFinal, v1tFinal, j, root);
    assert DiscOf(p2) == After(b, b.pos.Plus(n.Scale(overlap)), n, t, v2nFinal, v2tFinal, j, root);
  }

  // ---------------------------------------------------------------------
  // Compaction after a merge pass

  /** The particles of `s` with non-zero mass, in order. */
  function Live(s: seq<Particle>): seq<Particle>
    reads s
  {
    if s == [] then []
    else Live(s[..|s| - 1]) + (if s[|s| - 1].mass != 0.0 then [s[|s| - 1]] else [])
  }

  lemma {:induction false} LiveAppend(a: seq<Particle>, b: seq<Particle>)
    ensures Live(a + b) == Live(a) + Live(b)
    decreases |b|
  {
    if b == [] {
      assert a + b == a;
    } else {
      assert (a + b)[..|a + b| - 1] == a + b[..|b| - 1];
      LiveAppend(a, b[..|b| - 1]);
    }
  }

  /** `Live` keeps exactly the particles of non-zero mass, each as often as
      it occurs, and never more than it was given. */
  lemma {:induction false} LiveMembers(s: seq<Particle>, p: Particle)
    ensures p in Live(s) <==> p in s && p.mass != 0.0
    ensures multiset(Live(s))[p] == if p.mass != 0.0 then multiset(s)[p] else 0
    ensures |Live(s)| <= |s|
    decreases |s|
  {
    if s != [] {
      var init, last := s[..|s| - 1], s[|s| - 1];
      LiveMembers(init, p);
      assert s == init + [last];
    }
  }

  /** One more element for `Live`. */
  lemma LiveStep(s: seq<Particle>, i: nat)
    requires i < |s|
    ensures Live(s[..i + 1]) == Live(s[..i]) + (if s[i].mass != 0.0 then [s[i]] else [])
    ensures |Live(s[..i])| <= i
  {
    assert s[..i + 1][..i] == s[..i];
    LiveMembers(s[..i], s[i]);
  }

  /** The compaction loop of `handleCollisions` in merge mode: copy each live
      particle down to the write position, then cut the array at it. */
  method CompactLive(particles: ParticleList)
    modifies particles
    ensures particles.items == Live(old(particles.items))
  {
    ghost var s := particles.items;
    var write := 0;
    var read := 0;
    while read < |particles.items|
      invariant |particles.items| == |s| && 0 <= write <= read <= |s|
      invariant particles.items[..write] == Live(s[..read])
      invariant particles.items[read..] == s[read..]
    {
      LiveStep(s, read);
      var items := particles.items;
      var p := items[read];
      assert p == s[read] by {
        assert items[read..][0] == p;
      }
      if p.mass != 0.0 {
        particles.items := items[write := p];
        assert particles.items[..write + 1] == items[..write] + [p];
        assert particles.items[read + 1..] == items[read + 1..];
        write := write + 1;
      } else {
        assert particles.items[read + 1..] == items[read..][1..];
      }
      read := read + 1;
    }
    assert s[..read] == s;
    particles.items := particles.items[..write];
  }

  // ---------------------------------------------------------------------
  // Boundary policies

  /** Inside `[-100, width + 100] × [-100, height + 100]`. */
  predicate InsideDespawnRegion(v: Vec, width: real, height: real) {
    !(v.x < -DespawnLimit || v.x > width + DespawnLimit || v.y < -DespawnLimit || v.y > height + DespawnLimit)
  }

  /** The particles of `s` that `despawn` keeps, in order. */
  function Kept(s: seq<Particle>, width: real, height: real): seq<Particle>
    reads s
  {
    if s == [] then []
    else (if InsideDespawnRegion(s[0].pos, width, height) then [s[0]] else []) + Kept(s[1..], width, height)
  }

  lemma {:induction false} KeptMembers(s: seq<Particle>, width: real, height: real, p: Particle)
    ensures p in Kept(s, width, height) <==> p in s && InsideDespawnRegion(p.pos, width, height)
    ensures multiset(Kept(s, width, height))[p] ==
            if InsideDespawnRegion(p.pos, width, height) then multiset(s)[p] else 0
    decreases |s|
  {
    if s != [] {
      KeptMembers(s[1..], width, height, p);
      assert s == [s[0]] + s[1..];
    }
  }

  /** `despawn`: the backward loop that `splice`s out every particle outside
      the despawn region. */
  method DespawnOutside(particles: ParticleList, width: real, height: real)
    modifies particles
    ensures particles.items == Kept(old(particles.items), width, height)
  {
    ghost var s := particles.items;
    var i := |particles.items|;
    while i > 0
      invariant 0 <= i <= |s|
      invariant particles.items == s[..i] + Kept(s[i..], width, height)
    {
      i := i - 1;
      assert s[i..] == [s[i]] + s[i + 1..];
      assert particles.items[..i] == s[..i] && particles.items[i] == s[i];
      var p := particles.items[i];
      if !InsideDespawnRegion(p.pos, width, height) {
        particles.items := particles.items[..i] + particles.items[i + 1..];
      } else {
        assert s[..i + 1] == s[..i] + [s[i]];
      }
    }
  }

  /** `loop` on one axis: add or subtract the extent once. */
  function Wrap(x: real, extent: real): real {
    if x < 0.0 then x + extent else if x > extent then x - extent else x
  }

  /** One wrap brings any coordinate within one extent of the view back
      into it, and leaves one already inside alone. */
  lemma WrapLandsInside(x: real, extent: real)
    requires 0.0 < extent && -extent <= x <= 2.0 * extent
    ensures 0.0 <= Wrap(x, extent) <= extent
    ensures 0.0 <= x <= extent ==> Wrap(x, extent) == x
  {
  }

  /** `bounce` on one axis: the clamped coordinate, and whether it clamped. */
  function Clamp(x: real, r: real, extent: real): (real, bool) {
    if x < r then (r, true) else if x > extent - r then (extent - r, true) else (x, false)
  }

  /** With room for the radius, the clamped coordinate keeps the whole disc
      inside the wall; it moves exactly when the disc crossed a wall. */
  lemma ClampInside(x: real, r: real, extent: real)
    requires 2.0 * r <= extent
    ensures r <= Clamp(x, r, extent).0 <= extent - r
    ensures Clamp(x, r, extent).1 <==> x < r || x > extent - r
    ensures !Clamp(x, r, extent).1 ==> Clamp(x, r, extent).0 == x
  {
  }

  /** No particle occurs twice in the array. */
  ghost predicate Distinct(s: seq<Particle>) {
    forall i, j :: 0 <= i < j < |s| ==> s[i] != s[j]
  }

  /** `loop`: wrap every position, momenta untouched. */
  method WrapAll(particles: ParticleList, width: real, height: real)
    requires Distinct(particles.items)
    modifies particles.items
    ensures forall k :: 0 <= k < |particles.items| ==>
              particles.items[k].pos == Vec(Wrap(old(particles.items[k].pos.x), width), Wrap(old(particles.items[k].pos.y), height))
    ensures forall p :: p in particles.items ==> p.momentum == old(p.momentum) && p.vel == old(p.vel) && p.mass == old(p.mass)
    ensures forall p :: p in particles.items ==> p.charge == old(p.charge) && p.spin == old(p.spin) && p.radius == old(p.radius) && p.color == old(p.color) && p.acc == old(p.acc)
  {
    var s := particles.items;
    var i := |s|;
    while i > 0
      invariant 0 <= i <= |s|
      invariant forall k :: i <= k < |s| ==> s[k].pos == Vec(Wrap(old(s[k].pos.x), width), Wrap(old(s[k].pos.y), height))
      invariant forall k :: 0 <= k < i ==> s[k].pos == old(s[k].pos)
      invariant forall p :: p in s ==> p.momentum == old(p.momentum) && p.vel == old(p.vel) && p.mass == old(p.mass)
      invariant forall p :: p in s ==> p.charge == old(p.charge) && p.spin == old(p.spin) && p.radius == old(p.radius) && p.color == old(p.color) && p.acc == old(p.acc)
    {
      i := i - 1;
      var p := s[i];
      p.pos := Vec(Wrap(p.pos.x, width), Wrap(p.pos.y, height));
    }
  }

  /** `bounce` off the walls: clamp each coordinate to keep the disc inside
      and reverse that momentum component exactly when it clamped. */
  method BounceAll(particles: ParticleList, width: real, height: real)
    requires Distinct(particles.items)
    modifies particles.items
    ensures forall k :: 0 <= k < |particles.items| ==>
              var p, x, y := particles.items[k], Clamp(old(particles.items[k].pos.x), old(particles.items[k].radius), width),
                                                 Clamp(old(particles.items[k].pos.y), old(particles.items[k].radius), height);
              p.pos == Vec(x.0, y.0) &&
              p.momentum == Vec(if x.1 then -old(p.momentum.x) else old(p.momentum.x),
                                if y.1 then -old(p.momentum.y) else old(p.momentum.y))
    ensures forall p :: p in particles.items ==> p.vel == old(p.vel) && p.mass == old(p.mass) && p.radius == old(p.radius)
    ensures forall p :: p in particles.items ==> p.charge == old(p.charge) && p.spin == old(p.spin) && p.color == old(p.color) && p.acc == old(p.acc)
  {
    var s := particles.items;
    var i := |s|;
    while i > 0
      invariant 0 <= i <= |s|
      invariant forall k :: i <= k < |s| ==>
                  var p, x, y := s[k], Clamp(old(s[k].pos.x), old(s[k].radius), width), Clamp(old(s[k].pos.y), old(s[k].radius), height);
                  p.pos == Vec(x.0, y.0) &&
                  p.momentum == Vec(if x.1 then -old(p.momentum.x) else old(p.momentum.x),
                                    if y.1 then -old(p.momentum.y) else old(p.momentum.y))
      invariant forall k :: 0 <= k < i ==> s[k].pos == old(s[k].pos) && s[k].momentum == old(s[k].momentum)
      invariant forall p :: p in s ==> p.vel == old(p.vel) && p.mass == old(p.mass) && p.radius == old(p.radius)
      invariant forall p :: p in s ==> p.charge == old(p.charge) && p.spin == old(p.spin) && p.color == old(p.color) && p.acc == old(p.acc)
    {
      i := i - 1;
      var p := s[i];
      var x, flipX := Clamp(p.pos.x, p.radius, width).0, Clamp(p.pos.x, p.radius, width).1;
      var y, flipY := Clamp(p.pos.y, p.radius, height).0, Clamp(p.pos.y, p.radius, height).1;
      p.pos := Vec(x, y);
      p.momentum := Vec(if flipX then -p.momentum.x else p.momentum.x, if flipY then -p.momentum.y else p.momentum.y);
    }
  }

  /** The boundary branch of `update` for the selected mode. */
  method ApplyBoundary(particles: ParticleList, mode: BoundaryMode, width: real, height: real)
    requires Distinct(particles.items)
    modifies particles, particles.items
    ensures mode == Despawn ==> particles.items == Kept(old(particles.items), width, height)
    ensures mode != Despawn ==> particles.items == old(particles.items)
    ensures mode == Despawn ==> forall p :: p in old(particles.items) ==> unchanged(p)
    ensures mode == Loop ==> forall k :: 0 <= k < |particles.items| ==>
              particles.items[k].pos == Vec(Wrap(old(particles.items[k].pos.x), width), Wrap(old(particles.items[k].pos.y), height))
    ensures mode == Walls ==> forall k :: 0 <= k < |particles.items| ==>
              var p, x, y := particles.items[k], Clamp(old(particles.items[k].pos.x), old(particles.items[k].radius), width),
                                                 Clamp(old(particles.items[k].pos.y), old(particles.items[k].radius), height);
              p.pos == Vec(x.0, y.0) &&
              p.momentum == Vec(if x.1 then -old(p.momentum.x) else old(p.momentum.x),
                                if y.1 then -old(p.momentum.y) else old(p.momentum.y))
    ensures mode == Loop ==> forall p :: p in particles.items ==>
              p.momentum == old(p.momentum) && p.vel == old(p.vel) && p.mass == old(p.mass) && p.charge == old(p.charge) && p.spin == old(p.spin) && p.radius == old(p.radius) && p.color == old(p.color) && p.acc == old(p.acc)
    ensures mode == Walls ==> forall p :: p in particles.items ==>
              p.vel == old(p.vel) && p.mass == old(p.mass) && p.radius == old(p.radius) && p.charge == old(p.charge) && p.spin == old(p.spin) && p.color == old(p.color) && p.acc == old(p.acc)
  {
    match mode
    case Despawn => DespawnOutside(particles, width, height);
    case Loop => WrapAll(particles, width, height);
    case Walls => BounceAll(particles, width, height);
  }
}
