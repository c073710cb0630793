/** The simulated body (src/particle.js) and its charge-to-colour mapping. */
module Particles {
  import opened Vectors

  /** `getColor` returns either the fixed neutral grey or an HSL triple; the
      CSS text it is printed as is not modelled. */
  datatype Color = Neutral | Hsl(hue: real, saturation: real, lightness: real)

  /** Charge at which the colour is fully saturated. */
  const MaxChargeDisplay: real := 20.0
  const PositiveHue: real := 220.0
  const NegativeHue: real := 10.0

  function Abs(r: real): real {
    if r < 0.0 then -r else r
  }

  /** `Math.min(|charge| / 20, 1)`. */
  function Intensity(charge: real): (i: real)
    ensures 0.0 <= i <= 1.0
    ensures MaxChargeDisplay <= Abs(charge) ==> i == 1.0
    ensures Abs(charge) < MaxChargeDisplay ==> i * MaxChargeDisplay == Abs(charge)
  {
    var scaled := Abs(charge) / MaxChargeDisplay;
    if scaled < 1.0 then scaled else 1.0
  }

  function ColorOf(charge: real): (c: Color)
    ensures charge == 0.0 <==> c == Neutral
    ensures 0.0 < charge ==> c.Hsl? && c.hue == PositiveHue
    ensures charge < 0.0 ==> c.Hsl? && c.hue == NegativeHue
    ensures c.Hsl? ==> 50.0 <= c.saturation <= 100.0 && 40.0 <= c.lightness <= 60.0
  {
    if charge == 0.0 then Neutral
    else
      var intensity := Intensity(charge);
      var hue := if charge > 0.0 then PositiveHue else NegativeHue;
      Hsl(hue, 50.0 + 50.0 * intensity, 60.0 - 20.0 * intensity)
  }

  /** Saturation and lightness depend on |charge| only: opposite charges give
      the same colour apart from the hue. */
  lemma {:induction false} OppositeChargesDifferOnlyInHue(charge: real)
    requires charge != 0.0
    ensures ColorOf(-charge).Hsl? && ColorOf(charge).Hsl?
    ensures ColorOf(-charge).saturation == ColorOf(charge).saturation
    ensures ColorOf(-charge).lightness == ColorOf(charge).lightness
    ensures ColorOf(-charge).hue != ColorOf(charge).hue
  {
    assert Abs(-charge) == Abs(charge);
    assert Intensity(-charge) == Intensity(charge);
  }

  /** A particle.  `id` is an explicit constructor argument: the source never
      assigns one although collision filtering and trails key on it.  The
      position, velocity, acceleration and momentum vectors belong to this
      particle alone, so they are held as values. */
  class Particle {
    const id: int
    var pos: Vec
    var vel: Vec
    var acc: Vec
    var momentum: Vec
    var mass: real
    var charge: real
    var spin: real
    var radius: real
    var color: Color

    /** `new Particle(x, y, mass, charge)`; `root` stands for `Math.sqrt` in
        the radius `3·sqrt(mass)`. */
    constructor (id: int, x: real, y: real, mass: real, charge: real, root: real -> real)
      ensures this.id == id && pos == Vec(x, y)
      ensures vel == Zero && acc == Zero && momentum == Zero
      ensures this.mass == mass && this.charge == charge && spin == 0.0
      ensures radius == root(mass) * 3.0 && color == ColorOf(charge)
    {
      this.id := id;
      pos := Vec(x, y);
      vel := Zero;
      acc := Zero;
      momentum := Zero;
      this.mass := mass;
      this.charge := charge;
      spin := 0.0;
      radius := root(mass) * 3.0;
      color := ColorOf(charge);
    }

    /** `updateColor` refreshes the radius from the mass and the colour from
        the charge; nothing else changes. */
    method UpdateColor(root: real -> real)
      modifies `radius, `color
      ensures radius == root(mass) * 3.0
      ensures color == ColorOf(charge)
    {
      radius := root(mass) * 3.0;
      color := ColorOf(charge);
    }
  }

  /** The particle array of the simulation.  It is one object shared by the
      simulation, which appends to it, and the physics step, which compacts
      and splices it in place. */
  class ParticleList {
    var items: seq<Particle>

    constructor ()
      ensures items == []
    {
      items := [];
    }
  }
}
