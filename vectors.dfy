/** Two-dimensional vectors (src/vec2.js).

    `Vec` is the value of a vector; `Vec2` is the mutable vector object of the
    source, whose in-place operations are specified through its `Value()`. */
module Vectors {

  /** A square-root oracle: the model never computes a square root, it takes one
      as a parameter, and contracts that depend on its meaning require this.
      The law is stated on `RootOf` so that it is used only where a proof
      asks for it through `SqrtLaw`. */
  ghost predicate IsSqrt(root: real -> real) {
    forall t {:trigger RootOf(root, t)} :: 0.0 <= t ==> 0.0 <= RootOf(root, t) && RootOf(root, t) * RootOf(root, t) == t
  }

  ghost function RootOf(root: real -> real, t: real): real {
    root(t)
  }

  lemma SqrtLaw(root: real -> real, t: real)
    requires IsSqrt(root) && 0.0 <= t
    ensures 0.0 <= root(t) && root(t) * root(t) == t
  {
    assert RootOf(root, t) == root(t);
  }

  lemma {:induction false} SqrtPositive(root: real -> real, t: real)
    ensures IsSqrt(root) && 0.0 < t ==> 0.0 < root(t)
  {
    if IsSqrt(root) && 0.0 < t {
      SqrtLaw(root, t);
    }
  }

  datatype Vec = Vec(x: real, y: real) {

    function Plus(v: Vec): Vec { Vec(x + v.x, y + v.y) }

    function Minus(v: Vec): Vec { Vec(x - v.x, y - v.y) }

    function Scale(s: real): Vec { Vec(x * s, y * s) }

    function Dot(v: Vec): real { x * v.x + y * v.y }

    function MagSq(): (r: real)
      ensures 0.0 <= r
    {
      x * x + y * y
    }
  }

  const Zero := Vec(0.0, 0.0)

  /** Adding and then subtracting the same vector restores the original. */
  lemma AddSubRoundTrip(a: Vec, b: Vec)
    ensures a.Plus(b).Minus(b) == a && a.Minus(b).Plus(b) == a
  {
  }

  lemma DotSymmetric(a: Vec, b: Vec)
    ensures a.Dot(b) == b.Dot(a)
  {
  }

  /** Dividing a non-zero vector by its length gives a unit vector. */
  lemma {:induction false} NormalizedIsUnit(v: Vec, m: real)
    requires 0.0 < m && m * m == v.MagSq()
    ensures Vec(v.x / m, v.y / m).MagSq() == 1.0
  {
    var a, b := v.x / m, v.y / m;
    assert v.x == a * m && v.y == b * m;
    calc {
      m * m;
      v.x * v.x + v.y * v.y;
      (a * m) * (a * m) + (b * m) * (b * m);
      (a * a + b * b) * (m * m);
    }
    assert (a * a + b * b) * (m * m) == 1.0 * (m * m);
  }

  /** Dividing by the length the oracle gives yields a unit vector. */
  lemma {:induction false} UnitByOracle(v: Vec, root: real -> real)
    requires 0.0 < root(v.MagSq())
    ensures IsSqrt(root) ==> Vec(v.x / root(v.MagSq()), v.y / root(v.MagSq())).MagSq() == 1.0
  {
    if IsSqrt(root) {
      SqrtLaw(root, v.MagSq());
      NormalizedIsUnit(v, root(v.MagSq()));
    }
  }

  /** The mutable vector of the source. */
  class Vec2 {
    var x: real
    var y: real

    function Value(): Vec
      reads this
    {
      Vec(x, y)
    }

    constructor (x0: real, y0: real)
      ensures Value() == Vec(x0, y0)
    {
      x, y := x0, y0;
    }

    /** `set` overwrites both components and returns the same object. */
    method Set(x0: real, y0: real) returns (self: Vec2)
      modifies this
      ensures self == this
      ensures x == x0 && y == y0
    {
      x, y := x0, y0;
      self := this;
    }

    /** `clone` copies into a fresh object and leaves this one alone. */
    method Clone() returns (c: Vec2)
      ensures fresh(c) && c.Value() == Value()
    {
      c := new Vec2(x, y);
    }

    /** `add` adds `v`'s components as they were on entry (also when `v` is
        this very object, which then doubles). */
    method Add(v: Vec2) returns (self: Vec2)
      modifies this
      ensures self == this
      ensures Value() == old(Value()).Plus(old(v.Value()))
    {
      var vx, vy := v.x, v.y;
      x := x + vx;
      y := y + vy;
      self := this;
    }

    method Sub(v: Vec2) returns (self: Vec2)
      modifies this
      ensures self == this
      ensures Value() == old(Value()).Minus(old(v.Value()))
    {
      var vx, vy := v.x, v.y;
      x := x - vx;
      y := y - vy;
      self := this;
    }

    method Scale(s: real) returns (self: Vec2)
      modifies this
      ensures self == this
      ensures Value() == old(Value()).Scale(s)
    {
      x := x * s;
      y := y * s;
      self := this;
    }

    function MagSq(): (r: real)
      reads this
      ensures 0.0 <= r
      ensures r == Value().MagSq()
    {
      x * x + y * y
    }

    function Dot(v: Vec2): (r: real)
      reads this, v
      ensures r == v.Value().Dot(Value())
    {
      x * v.x + y * v.y
    }

    /** `normalize` divides by the length `root(MagSq())` when it is positive;
        the zero vector is left as it is, whatever the oracle answers. */
    method Normalize(root: real -> real) returns (self: Vec2)
      modifies this
      ensures self == this
      ensures var m := root(old(MagSq())); m > 0.0 ==> Value() == Vec(old(x) / m, old(y) / m)
      ensures root(old(MagSq())) <= 0.0 ==> Value() == old(Value())
      ensures old(Value()) == Zero ==> Value() == Zero
      ensures IsSqrt(root) && old(MagSq()) > 0.0 ==> Value().MagSq() == 1.0
    {
      var v := Vec(x, y);
      var m := root(v.MagSq());
      if m > 0.0 {
        x, y := v.x / m, v.y / m;
        UnitByOracle(v, root);
      } else {
        SqrtPositive(root, v.MagSq());
      }
      self := this;
    }

    /** Static `add`: a fresh vector; the arguments are left alone. */
    static method Sum(a: Vec2, b: Vec2) returns (r: Vec2)
      ensures fresh(r) && r.Value() == a.Value().Plus(b.Value())
    {
      r := new Vec2(a.x + b.x, a.y + b.y);
    }

    /** Static `sub`. */
    static method Difference(a: Vec2, b: Vec2) returns (r: Vec2)
      ensures fresh(r) && r.Value() == a.Value().Minus(b.Value())
    {
      r := new Vec2(a.x - b.x, a.y - b.y);
    }
  }

  /** `a.add(b).sub(b)` on two distinct objects restores `a`. */
  method AddThenSub(a: Vec2, b: Vec2)
    requires a != b
    modifies a
    ensures a.Value() == old(a.Value()) && b.Value() == old(b.Value())
  {
    var _ := a.Add(b);
    var _ := a.Sub(b);
    AddSubRoundTrip(old(a.Value()), b.Value());
  }

  /** With `b` the same object as `a`, `a.add(a).sub(a)` zeroes `a` instead. */
  method SelfAddThenSub(a: Vec2)
    modifies a
    ensures a.Value() == Zero
  {
    var _ := a.Add(a);
    var _ := a.Sub(a);
  }
}
