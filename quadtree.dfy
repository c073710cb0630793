/** The Barnes–Hut quadtree (src/quadtree.js): axis-aligned boxes, a
    point-region tree of particles, its per-node aggregates and range query. */
module Quadtree {
  import opened Vectors
  import opened Particles
  import opened Wrappers

  /** A box given by its centre and half-extents. */
  datatype Rect = Rect(x: real, y: real, w: real, h: real) {

    /** Closed-box membership. */
    predicate Contains(p: Vec) {
      p.x >= x - w && p.x <= x + w && p.y >= y - h && p.y <= y + h
    }

    /** False exactly when `range` lies strictly beyond one of this box's
        four edges. */
    predicate Intersects(range: Rect) {
      !(range.x - range.w > x + w ||
        range.x + range.w < x - w ||
        range.y - range.h > y + h ||
        range.y + range.h < y - h)
    }
  }

  predicate Between(lo: real, v: real, hi: real) {
    lo <= v <= hi
  }

  /** Membership is the product of two closed intervals. */
  lemma ContainsIsClosedBox(r: Rect, p: Vec)
    ensures r.Contains(p) <==> Between(r.x - r.w, p.x, r.x + r.w) && Between(r.y - r.h, p.y, r.y + r.h)
  {
  }

  /** Two boxes that share a point intersect, in either order. */
  lemma {:induction false} SharedPointIntersects(a: Rect, b: Rect, p: Vec)
    requires a.Contains(p) && b.Contains(p)
    ensures a.Intersects(b) && b.Intersects(a)
  {
    assert b.x - b.w <= p.x <= a.x + a.w && a.x - a.w <= p.x <= b.x + b.w;
    assert b.y - b.h <= p.y <= a.y + a.h && a.y - a.h <= p.y <= b.y + b.h;
  }

  datatype Quad = NW | NE | SW | SE

  /** The child box `subdivide` creates for quadrant `q`: half the extents,
      centred half an extent away from the parent's centre. */
  function Quadrant(r: Rect, q: Quad): Rect {
    var hw, hh := r.w / 2.0, r.h / 2.0;
    match q
    case NW => Rect(r.x - hw, r.y - hh, hw, hh)
    case NE => Rect(r.x + hw, r.y - hh, hw, hh)
    case SW => Rect(r.x - hw, r.y + hh, hw, hh)
    case SE => Rect(r.x + hw, r.y + hh, hw, hh)
  }

  /** Every point of a box lies in one of its four closed quadrants. */
  lemma {:induction false} QuadrantsCover(r: Rect, p: Vec)
    requires r.Contains(p)
    ensures Quadrant(r, NW).Contains(p) || Quadrant(r, NE).Contains(p) ||
            Quadrant(r, SW).Contains(p) || Quadrant(r, SE).Contains(p)
  {
    if p.x <= r.x && p.y <= r.y {
      assert Quadrant(r, NW).Contains(p);
    } else if p.x <= r.x {
      assert Quadrant(r, SW).Contains(p);
    } else if p.y <= r.y {
      assert Quadrant(r, NE).Contains(p);
    } else {
      assert Quadrant(r, SE).Contains(p);
    }
  }

  /** A quadrant of a box with non-negative extents lies inside it. */
  lemma QuadrantInside(r: Rect, q: Quad, p: Vec)
    requires 0.0 <= r.w && 0.0 <= r.h
    requires Quadrant(r, q).Contains(p)
    ensures r.Contains(p)
  {
  }

  /** What the tree reads from a particle, captured at one instant. */
  datatype Body = Body(pos: Vec, mass: real, charge: real, spin: real)

  /** A snapshot of the particles.  The tree functions see particles only
      through one, so that they are values; `Current` says a snapshot agrees
      with the particles as they now are. */
  type Snapshot = map<Particle, Body>

  function BodyOf(P: Snapshot, q: Particle): Body {
    if q in P then P[q] else Body(Zero, 0.0, 0.0, 0.0)
  }

  function At(P: Snapshot, q: Particle): Vec {
    BodyOf(P, q).pos
  }

  ghost predicate Current(P: Snapshot)
    reads P.Keys
  {
    forall q :: q in P ==> P[q] == Body(q.pos, q.mass, q.charge, q.spin)
  }

  /** The per-particle quantities `calculateMassDistribution` sums. */
  datatype Quantity = Mass | Charge | MagneticMoment | AngularMomentum | MomentX | MomentY

  function Weight(b: Body, q: Quantity): real {
    match q
    case Mass => b.mass
    case Charge => b.charge
    case MagneticMoment => b.charge * b.spin
    case AngularMomentum => b.mass * b.spin
    case MomentX => b.pos.x * b.mass
    case MomentY => b.pos.y * b.mass
  }

  /** The sum of `q` over `s`, accumulated front to back. */
  function Total(s: seq<Particle>, q: Quantity, P: Snapshot): real {
    if s == [] then 0.0 else Total(s[..|s| - 1], q, P) + Weight(BodyOf(P, s[|s| - 1]), q)
  }

  lemma {:induction false} TotalAppend(a: seq<Particle>, b: seq<Particle>, q: Quantity, P: Snapshot)
    ensures Total(a + b, q, P) == Total(a, q, P) + Total(b, q, P)
    decreases |b|
  {
    if b == [] {
      assert a + b == a;
    } else {
      assert (a + b)[..|a + b| - 1] == a + b[..|b| - 1];
      TotalAppend(a, b[..|b| - 1], q, P);
    }
  }

  /** With no negative mass, a zero total mass means every mass is zero, so
      the mass moments vanish too. */
  lemma {:induction false} MasslessHasNoMoment(s: seq<Particle>, P: Snapshot)
    requires forall p :: p in s ==> 0.0 <= BodyOf(P, p).mass
    ensures 0.0 <= Total(s, Mass, P)
    ensures Total(s, Mass, P) == 0.0 ==> Total(s, MomentX, P) == 0.0 && Total(s, MomentY, P) == 0.0
    decreases |s|
  {
    if s != [] {
      var init, last := s[..|s| - 1], s[|s| - 1];
      assert forall p :: p in init ==> p in s;
      assert last in s;
      MasslessHasNoMoment(init, P);
      if Total(s, Mass, P) == 0.0 {
        assert BodyOf(P, last).mass == 0.0;
        assert Weight(BodyOf(P, last), MomentX) == 0.0 && Weight(BodyOf(P, last), MomentY) == 0.0;
      }
    }
  }

  /** The particles of `s` whose position is inside `range`, in order. */
  function InRange(s: seq<Particle>, range: Rect, P: Snapshot): seq<Particle> {
    if s == [] then []
    else InRange(s[..|s| - 1], range, P) + (if range.Contains(At(P, s[|s| - 1])) then [s[|s| - 1]] else [])
  }

  lemma {:induction false} InRangeAppend(a: seq<Particle>, b: seq<Particle>, range: Rect, P: Snapshot)
    ensures InRange(a + b, range, P) == InRange(a, range, P) + InRange(b, range, P)
    decreases |b|
  {
    if b == [] {
      assert a + b == a;
    } else {
      assert (a + b)[..|a + b| - 1] == a + b[..|b| - 1];
      InRangeAppend(a, b[..|b| - 1], range, P);
    }
  }

  /** `InRange` keeps exactly the particles in the range. */
  lemma {:induction false} InRangeMembers(s: seq<Particle>, range: Rect, P: Snapshot, p: Particle)
    ensures p in InRange(s, range, P) <==> p in s && range.Contains(At(P, p))
    decreases |s|
  {
    if s != [] {
      InRangeMembers(s[..|s| - 1], range, P, p);
      assert s == s[..|s| - 1] + [s[|s| - 1]];
    }
  }

  lemma {:induction false} InRangeNone(s: seq<Particle>, range: Rect, P: Snapshot)
    requires forall p :: p in s ==> !range.Contains(At(P, p))
    ensures InRange(s, range, P) == []
    decreases |s|
  {
    if s != [] {
      assert s[|s| - 1] in s;
      assert forall p :: p in s[..|s| - 1] ==> p in s;
      InRangeNone(s[..|s| - 1], range, P);
    }
  }

  /** The shape of a subtree as a value: a leaf's particles in insertion
      order, or four children in the order north-west, north-east,
      south-west, south-east.  Boxes and capacity are not stored: a child's
      box is its parent's quadrant, and the capacity is shared. */
  datatype Tree = Leaf(points: seq<Particle>) | Quad(nw: Tree, ne: Tree, sw: Tree, se: Tree)

  /** Four empty leaves: what `subdivide` attaches. */
  const EmptyQuad: Tree := Quad(Leaf([]), Leaf([]), Leaf([]), Leaf([]))

  /** The particles stored in `t`, leaves left to right. */
  function Elements(t: Tree): seq<Particle> {
    match t
    case Leaf(ps) => ps
    case Quad(nw, ne, sw, se) => Elements(nw) + Elements(ne) + Elements(sw) + Elements(se)
  }

  /** The particles stored in `t`, counted with multiplicity. */
  function Bag(t: Tree): multiset<Particle> {
    match t
    case Leaf(ps) => multiset(ps)
    case Quad(nw, ne, sw, se) => Bag(nw) + Bag(ne) + Bag(sw) + Bag(se)
  }

  /** `insert` on a subtree with box `b`, as the source runs it: refuse a
      particle outside the box; append to a leaf with room; otherwise, after
      splitting a full leaf and handing its particles to the new children,
      offer the particle to the children.  `fuel` bounds the depth of
      recursion. */
  function InsertInto(t: Tree, b: Rect, cap: nat, p: Particle, P: Snapshot, fuel: nat): (Tree, bool)
    decreases fuel, 0, 0
  {
    if !b.Contains(At(P, p)) then (t, false)
    else if t.Leaf? && |t.points| < cap then (Leaf(t.points + [p]), true)
    else if fuel == 0 then (t, false)
    else if t.Leaf? then InsertChildren(Redistribute(EmptyQuad, t.points, b, cap, P, fuel - 1), b, cap, p, P, fuel - 1)
    else InsertChildren(t, b, cap, p, P, fuel - 1)
  }

  /** `nw.insert(p) || ne.insert(p) || sw.insert(p) || se.insert(p)`: the
      first child to accept stops the chain.  A child that refuses may still
      have split. */
  function InsertChildren(t: Tree, b: Rect, cap: nat, p: Particle, P: Snapshot, fuel: nat): (r: (Tree, bool))
    requires t.Quad?
    ensures r.0.Quad?
    decreases fuel, 1, 0
  {
    var (nw, ok1) := InsertInto(t.nw, Quadrant(b, NW), cap, p, P, fuel);
    if ok1 then (t.(nw := nw), true)
    else
      var (ne, ok2) := InsertInto(t.ne, Quadrant(b, NE), cap, p, P, fuel);
      if ok2 then (t.(nw := nw, ne := ne), true)
      else
        var (sw, ok3) := InsertInto(t.sw, Quadrant(b, SW), cap, p, P, fuel);
        if ok3 then (t.(nw := nw, ne := ne, sw := sw), true)
        else
          var (se, ok4) := InsertInto(t.se, Quadrant(b, SE), cap, p, P, fuel);
          (Quad(nw, ne, sw, se), ok4)
  }

  /** The redistribution loop of a split: each held particle in order is
      offered to the children. */
  function Redistribute(t: Tree, held: seq<Particle>, b: Rect, cap: nat, P: Snapshot, fuel: nat): (r: Tree)
    requires t.Quad?
    ensures r.Quad?
    decreases fuel, 2, |held|
  {
    if held == [] then t
    else
      var t1 := Redistribute(t, held[..|held| - 1], b, cap, P, fuel);
      InsertChildren(t1, b, cap, held[|held| - 1], P, fuel).0
  }

  /** The tree invariant: every leaf holds at most `cap` particles, each
      inside the leaf's box, where a child's box is its parent's quadrant. */
  predicate Wf(t: Tree, b: Rect, cap: nat, P: Snapshot) {
    match t
    case Leaf(ps) => |ps| <= cap && forall q :: q in ps ==> b.Contains(At(P, q))
    case Quad(nw, ne, sw, se) =>
      Wf(nw, Quadrant(b, NW), cap, P) && Wf(ne, Quadrant(b, NE), cap, P) &&
      Wf(sw, Quadrant(b, SW), cap, P) && Wf(se, Quadrant(b, SE), cap, P)
  }

  /** Insertion keeps the tree invariant, whether or not it accepts. */
  lemma {:induction false} InsertKeepsWf(t: Tree, b: Rect, cap: nat, p: Particle, P: Snapshot, fuel: nat)
    requires Wf(t, b, cap, P)
    ensures Wf(InsertInto(t, b, cap, p, P, fuel).0, b, cap, P)
    decreases fuel, 0, 0
  {
    if !b.Contains(At(P, p)) {
    } else if t.Leaf? && |t.points| < cap {
      assert forall q :: q in t.points + [p] ==> q in t.points || q == p;
    } else if fuel == 0 {
    } else if t.Leaf? {
      RedistributeKeepsWf(EmptyQuad, t.points, b, cap, P, fuel - 1);
      InsertChildrenKeepsWf(Redistribute(EmptyQuad, t.points, b, cap, P, fuel - 1), b, cap, p, P, fuel - 1);
    } else {
      InsertChildrenKeepsWf(t, b, cap, p, P, fuel - 1);
    }
  }

  lemma {:induction false} InsertChildrenKeepsWf(t: Tree, b: Rect, cap: nat, p: Particle, P: Snapshot, fuel: nat)
    requires t.Quad? && Wf(t, b, cap, P)
    ensures Wf(InsertChildren(t, b, cap, p, P, fuel).0, b, cap, P)
    decreases fuel, 1, 0
  {
    var (nw, ok1) := InsertInto(t.nw, Quadrant(b, NW), cap, p, P, fuel);
    var (ne, ok2) := InsertInto(t.ne, Quadrant(b, NE), cap, p, P, fuel);
    var (sw, ok3) := InsertInto(t.sw, Quadrant(b, SW), cap, p, P, fuel);
    var (se, ok4) := InsertInto(t.se, Quadrant(b, SE), cap, p, P, fuel);
    InsertKeepsWf(t.nw, Quadrant(b, NW), cap, p, P, fuel);
    InsertKeepsWf(t.ne, Quadrant(b, NE), cap, p, P, fuel);
    InsertKeepsWf(t.sw, Quadrant(b, SW), cap, p, P, fuel);
    InsertKeepsWf(t.se, Quadrant(b, SE), cap, p, P, fuel);
    assert Wf(Quad(nw, t.ne, t.sw, t.se), b, cap, P);
    assert Wf(Quad(nw, ne, t.sw, t.se), b, cap, P);
    assert Wf(Quad(nw, ne, sw, t.se), b, cap, P);
    assert Wf(Quad(nw, ne, sw, se), b, cap, P);
  }

  lemma {:induction false} RedistributeKeepsWf(t: Tree, held: seq<Particle>, b: Rect, cap: nat, P: Snapshot, fuel: nat)
    requires t.Quad? && Wf(t, b, cap, P)
    ensures Wf(Redistribute(t, held, b, cap, P, fuel), b, cap, P)
    decreases fuel, 2, |held|
  {
    if held != [] {
      RedistributeKeepsWf(t, held[..|held| - 1], b, cap, P, fuel);
      InsertChildrenKeepsWf(Redistribute(t, held[..|held| - 1], b, cap, P, fuel), b, cap, held[|held| - 1], P, fuel);
    }
  }

  /** Four leaves, as right after a split. */
  predicate AllLeaves(t: Tree) {
    t.Quad? && t.nw.Leaf? && t.ne.Leaf? && t.sw.Leaf? && t.se.Leaf?
  }

  /** A leaf with room takes exactly the particles inside its box. */
  lemma LeafTakes(c: Tree, b: Rect, cap: nat, p: Particle, P: Snapshot, fuel: nat)
    requires c.Leaf? && |c.points| < cap
    ensures InsertInto(c, b, cap, p, P, fuel) ==
            if b.Contains(At(P, p)) then (Leaf(c.points + [p]), true) else (c, false)
  {
  }

  /** Offering a particle of the box to four leaves that hold fewer than
      `cap` particles between them always succeeds, and adds it to one of
      them. */
  lemma {:induction false} InsertChildrenRoom(t: Tree, b: Rect, cap: nat, p: Particle, P: Snapshot, fuel: nat)
    requires AllLeaves(t) && |Bag(t)| < cap
    requires b.Contains(At(P, p))
    ensures InsertChildren(t, b, cap, p, P, fuel).1
    ensures AllLeaves(InsertChildren(t, b, cap, p, P, fuel).0)
    ensures Bag(InsertChildren(t, b, cap, p, P, fuel).0) == Bag(t) + multiset{p}
  {
    QuadrantsCover(b, At(P, p));
    assert Bag(t) == multiset(t.nw.points) + multiset(t.ne.points) + multiset(t.sw.points) + multiset(t.se.points);
    LeafTakes(t.nw, Quadrant(b, NW), cap, p, P, fuel);
    LeafTakes(t.ne, Quadrant(b, NE), cap, p, P, fuel);
    LeafTakes(t.sw, Quadrant(b, SW), cap, p, P, fuel);
    LeafTakes(t.se, Quadrant(b, SE), cap, p, P, fuel);
  }

  /** Splitting a leaf that holds at most `cap` particles of its box hands
      every one of them to the four new leaves, none lost and none repeated. */
  lemma {:induction false} RedistributeFills(held: seq<Particle>, b: Rect, cap: nat, P: Snapshot, fuel: nat)
    requires |held| <= cap
    requires forall q :: q in held ==> b.Contains(At(P, q))
    ensures AllLeaves(Redistribute(EmptyQuad, held, b, cap, P, fuel))
    ensures Bag(Redistribute(EmptyQuad, held, b, cap, P, fuel)) == multiset(held)
    decreases |held|
  {
    if held != [] {
      var init, last := held[..|held| - 1], held[|held| - 1];
      assert forall q :: q in init ==> q in held;
      RedistributeFills(init, b, cap, P, fuel);
      var t1 := Redistribute(EmptyQuad, init, b, cap, P, fuel);
      assert Redistribute(EmptyQuad, held, b, cap, P, fuel) == InsertChildren(t1, b, cap, last, P, fuel).0;
      assert |Bag(t1)| == |init| by {
        assert |multiset(init)| == |init|;
      }
      InsertChildrenRoom(t1, b, cap, last, P, fuel);
      assert multiset(held) == multiset(init) + multiset{last} by {
        assert held == init + [last];
      }
    }
  }

  /** An accepted particle is added once; a refused one leaves the contents
      as they were (though a split may have happened). */
  lemma {:induction false} InsertElements(t: Tree, b: Rect, cap: nat, p: Particle, P: Snapshot, fuel: nat)
    requires Wf(t, b, cap, P)
    ensures InsertInto(t, b, cap, p, P, fuel).1 ==> Bag(InsertInto(t, b, cap, p, P, fuel).0) == Bag(t) + multiset{p}
    ensures !InsertInto(t, b, cap, p, P, fuel).1 ==> Bag(InsertInto(t, b, cap, p, P, fuel).0) == Bag(t)
    decreases fuel, 0, 1
  {
    if !b.Contains(At(P, p)) || (!(t.Leaf? && |t.points| < cap) && fuel == 0) {
    } else if t.Leaf? && |t.points| < cap {
      AppendElements(t, b, cap, p, P, fuel);
    } else if t.Leaf? {
      SplitLeafElements(t, b, cap, p, P, fuel);
    } else {
      DescendElements(t, b, cap, p, P, fuel);
    }
  }

  lemma AppendElements(t: Tree, b: Rect, cap: nat, p: Particle, P: Snapshot, fuel: nat)
    requires b.Contains(At(P, p)) && t.Leaf? && |t.points| < cap
    ensures InsertInto(t, b, cap, p, P, fuel) == (Leaf(t.points + [p]), true)
    ensures Bag(InsertInto(t, b, cap, p, P, fuel).0) == Bag(t) + multiset{p}
  {
    assert multiset(t.points + [p]) == multiset(t.points) + multiset{p};
  }

  /** A full leaf splits, redistributes, then offers `p` to the children. */
  lemma {:induction false} SplitLeafElements(t: Tree, b: Rect, cap: nat, p: Particle, P: Snapshot, fuel: nat)
    requires Wf(t, b, cap, P) && b.Contains(At(P, p)) && t.Leaf? && cap <= |t.points| && 0 < fuel
    ensures InsertInto(t, b, cap, p, P, fuel).1 ==> Bag(InsertInto(t, b, cap, p, P, fuel).0) == Bag(t) + multiset{p}
    ensures !InsertInto(t, b, cap, p, P, fuel).1 ==> Bag(InsertInto(t, b, cap, p, P, fuel).0) == Bag(t)
    decreases fuel, 0, 0
  {
    assert InsertInto(t, b, cap, p, P, fuel) ==
      InsertChildren(Redistribute(EmptyQuad, t.points, b, cap, P, fuel - 1), b, cap, p, P, fuel - 1);
    SplitElements(t.points, b, cap, p, P, fuel - 1);
  }

  /** A divided node offers `p` to its children. */
  lemma {:induction false} DescendElements(t: Tree, b: Rect, cap: nat, p: Particle, P: Snapshot, fuel: nat)
    requires Wf(t, b, cap, P) && b.Contains(At(P, p)) && t.Quad? && 0 < fuel
    ensures InsertInto(t, b, cap, p, P, fuel).1 ==> Bag(InsertInto(t, b, cap, p, P, fuel).0) == Bag(t) + multiset{p}
    ensures !InsertInto(t, b, cap, p, P, fuel).1 ==> Bag(InsertInto(t, b, cap, p, P, fuel).0) == Bag(t)
    decreases fuel, 0, 0
  {
    assert InsertInto(t, b, cap, p, P, fuel) == InsertChildren(t, b, cap, p, P, fuel - 1);
    InsertChildrenElements(t, b, cap, p, P, fuel - 1);
  }

  /** A split followed by the offer to the children: the held particles
      all survive, and the new one is added exactly when accepted. */
  lemma {:induction false} SplitElements(ps: seq<Particle>, b: Rect, cap: nat, p: Particle, P: Snapshot, fuel: nat)
    requires Wf(Leaf(ps), b, cap, P)
    ensures var r := InsertChildren(Redistribute(EmptyQuad, ps, b, cap, P, fuel), b, cap, p, P, fuel);
      Bag(r.0) == multiset(ps) + (if r.1 then multiset{p} else multiset{})
    decreases fuel, 1, 1
  {
    var t1 := Redistribute(EmptyQuad, ps, b, cap, P, fuel);
    RedistributeFills(ps, b, cap, P, fuel);
    RedistributeKeepsWf(EmptyQuad, ps, b, cap, P, fuel);
    InsertChildrenElements(t1, b, cap, p, P, fuel);
  }

  lemma {:induction false} InsertChildrenElements(t: Tree, b: Rect, cap: nat, p: Particle, P: Snapshot, fuel: nat)
    requires t.Quad? && Wf(t, b, cap, P)
    ensures var r := InsertChildren(t, b, cap, p, P, fuel);
      Bag(r.0) == Bag(t) + (if r.1 then multiset{p} else multiset{})
    decreases fuel, 1, 0
  {
    InsertElements(t.nw, Quadrant(b, NW), cap, p, P, fuel);
    InsertElements(t.ne, Quadrant(b, NE), cap, p, P, fuel);
    InsertElements(t.sw, Quadrant(b, SW), cap, p, P, fuel);
    InsertElements(t.se, Quadrant(b, SE), cap, p, P, fuel);
  }

  /** A box with non-negative extents contains everything a well-formed
      subtree stores. */
  lemma {:induction false} WfWithin(t: Tree, b: Rect, cap: nat, P: Snapshot)
    requires Wf(t, b, cap, P) && 0.0 <= b.w && 0.0 <= b.h
    ensures forall q :: q in Elements(t) ==> b.Contains(At(P, q))
  {
    match t
    case Leaf(ps) =>
    case Quad(nw, ne, sw, se) =>
      WfWithin(nw, Quadrant(b, NW), cap, P);
      WfWithin(ne, Quadrant(b, NE), cap, P);
      WfWithin(sw, Quadrant(b, SW), cap, P);
      WfWithin(se, Quadrant(b, SE), cap, P);
      forall q | q in Elements(t)
        ensures b.Contains(At(P, q))
      {
        if q in Elements(nw) { QuadrantInside(b, NW, At(P, q)); }
        else if q in Elements(ne) { QuadrantInside(b, NE, At(P, q)); }
        else if q in Elements(sw) { QuadrantInside(b, SW, At(P, q)); }
        else { QuadrantInside(b, SE, At(P, q)); }
      }
  }

  /** `query` on a subtree with box `b`: nothing when the box misses the
      range, the in-range particles of a leaf, else the children in order,
      each appending to what the previous found. */
  function Collect(t: Tree, b: Rect, range: Rect, P: Snapshot, found: seq<Particle>): seq<Particle> {
    if !b.Intersects(range) then found
    else match t
      case Leaf(ps) => found + InRange(ps, range, P)
      case Quad(nw, ne, sw, se) =>
        var f1 := Collect(nw, Quadrant(b, NW), range, P, found);
        var f2 := Collect(ne, Quadrant(b, NE), range, P, f1);
        var f3 := Collect(sw, Quadrant(b, SW), range, P, f2);
        Collect(se, Quadrant(b, SE), range, P, f3)
  }

  lemma AppendAssoc(a: seq<Particle>, b: seq<Particle>, c: seq<Particle>)
    ensures (a + b) + c == a + (b + c)
  {
  }

  /** On a well-formed tree the pruning loses nothing: the query appends
      exactly the stored particles inside the range, in leaf order, and
      keeps what `found` held. */
  lemma {:induction false} CollectExact(t: Tree, b: Rect, cap: nat, range: Rect, P: Snapshot, found: seq<Particle>)
    requires Wf(t, b, cap, P) && 0.0 <= b.w && 0.0 <= b.h
    ensures Collect(t, b, range, P, found) == found + InRange(Elements(t), range, P)
  {
    if !b.Intersects(range) {
      WfWithin(t, b, cap, P);
      forall q | q in Elements(t)
        ensures !range.Contains(At(P, q))
      {
        if range.Contains(At(P, q)) {
          SharedPointIntersects(b, range, At(P, q));
        }
      }
      InRangeNone(Elements(t), range, P);
      assert found + [] == found;
    } else if t.Quad? {
      var f1 := Collect(t.nw, Quadrant(b, NW), range, P, found);
      var f2 := Collect(t.ne, Quadrant(b, NE), range, P, f1);
      var f3 := Collect(t.sw, Quadrant(b, SW), range, P, f2);
      CollectExact(t.nw, Quadrant(b, NW), cap, range, P, found);
      CollectExact(t.ne, Quadrant(b, NE), cap, range, P, f1);
      CollectExact(t.sw, Quadrant(b, SW), cap, range, P, f2);
      CollectExact(t.se, Quadrant(b, SE), cap, range, P, f3);
      CollectQuad(Elements(t.nw), Elements(t.ne), Elements(t.sw), Elements(t.se), range, P, found);
    }
  }

  /** The accumulation order of the four child queries matches the order
      of the children's particles. */
  lemma {:induction false} CollectQuad(a: seq<Particle>, b: seq<Particle>, c: seq<Particle>, d: seq<Particle>,
                                     range: Rect, P: Snapshot, found: seq<Particle>)
    ensures found + InRange(a + b + c + d, range, P) ==
            found + InRange(a, range, P) + InRange(b, range, P) + InRange(c, range, P) + InRange(d, range, P)
  {
    var A, B, C, D := InRange(a, range, P), InRange(b, range, P), InRange(c, range, P), InRange(d, range, P);
    InRangeAppend(a + b + c, d, range, P);
    InRangeAppend(a + b, c, range, P);
    InRangeAppend(a, b, range, P);
    assert InRange(a + b + c + d, range, P) == A + B + C + D;
    AppendAssoc(found + A + B, C, D);
    AppendAssoc(found + A, B, C + D);
    AppendAssoc(found, A, B + (C + D));
    AppendAssoc(A + B, C, D);
    AppendAssoc(A, B, C + D);
  }

  /** No particle stored in `t` has negative mass. */
  predicate MassesNonNegative(t: Tree, P: Snapshot) {
    forall p :: p in Elements(t) ==> 0.0 <= BodyOf(P, p).mass
  }

  lemma MassesNonNegativeQuad(t: Tree, P: Snapshot)
    requires t.Quad? && MassesNonNegative(t, P)
    ensures MassesNonNegative(t.nw, P) && MassesNonNegative(t.ne, P)
    ensures MassesNonNegative(t.sw, P) && MassesNonNegative(t.se, P)
  {
    assert Elements(t) == Elements(t.nw) + Elements(t.ne) + Elements(t.sw) + Elements(t.se);
  }

  /** The sum over a divided subtree is the sum of its children's sums. */
  lemma TotalQuad(t: Tree, q: Quantity, P: Snapshot)
    requires t.Quad?
    ensures Total(Elements(t), q, P) ==
            Total(Elements(t.nw), q, P) + Total(Elements(t.ne), q, P) + Total(Elements(t.sw), q, P) + Total(Elements(t.se), q, P)
  {
    var a, b, c, d := Elements(t.nw), Elements(t.ne), Elements(t.sw), Elements(t.se);
    TotalAppend(a + b + c, d, q, P);
    TotalAppend(a + b, c, q, P);
    TotalAppend(a, b, q, P);
  }

  /** Every particle stored in `t` has a position in the snapshot `P`. */
  predicate Known(t: Tree, P: Snapshot) {
    match t
    case Leaf(ps) => forall q :: q in ps ==> q in P
    case Quad(nw, ne, sw, se) => Known(nw, P) && Known(ne, P) && Known(sw, P) && Known(se, P)
  }

  lemma {:induction false} InsertKeepsKnown(t: Tree, b: Rect, cap: nat, p: Particle, P: Snapshot, fuel: nat)
    requires Known(t, P) && p in P
    ensures Known(InsertInto(t, b, cap, p, P, fuel).0, P)
    decreases fuel, 0, 0
  {
    if !b.Contains(At(P, p)) {
    } else if t.Leaf? && |t.points| < cap {
      assert forall q :: q in t.points + [p] ==> q in t.points || q == p;
    } else if fuel == 0 {
    } else if t.Leaf? {
      RedistributeKeepsKnown(EmptyQuad, t.points, b, cap, P, fuel - 1);
      InsertChildrenKeepsKnown(Redistribute(EmptyQuad, t.points, b, cap, P, fuel - 1), b, cap, p, P, fuel - 1);
    } else {
      InsertChildrenKeepsKnown(t, b, cap, p, P, fuel - 1);
    }
  }

  lemma {:induction false} InsertChildrenKeepsKnown(t: Tree, b: Rect, cap: nat, p: Particle, P: Snapshot, fuel: nat)
    requires t.Quad? && Known(t, P) && p in P
    ensures Known(InsertChildren(t, b, cap, p, P, fuel).0, P)
    decreases fuel, 1, 0
  {
    var (nw, ok1) := InsertInto(t.nw, Quadrant(b, NW), cap, p, P, fuel);
    var (ne, ok2) := InsertInto(t.ne, Quadrant(b, NE), cap, p, P, fuel);
    var (sw, ok3) := InsertInto(t.sw, Quadrant(b, SW), cap, p, P, fuel);
    var (se, ok4) := InsertInto(t.se, Quadrant(b, SE), cap, p, P, fuel);
    InsertKeepsKnown(t.nw, Quadrant(b, NW), cap, p, P, fuel);
    InsertKeepsKnown(t.ne, Quadrant(b, NE), cap, p, P, fuel);
    InsertKeepsKnown(t.sw, Quadrant(b, SW), cap, p, P, fuel);
    InsertKeepsKnown(t.se, Quadrant(b, SE), cap, p, P, fuel);
    assert Known(Quad(nw, t.ne, t.sw, t.se), P);
    assert Known(Quad(nw, ne, t.sw, t.se), P);
    assert Known(Quad(nw, ne, sw, t.se), P);
    assert Known(Quad(nw, ne, sw, se), P);
  }

  lemma {:induction false} RedistributeKeepsKnown(t: Tree, held: seq<Particle>, b: Rect, cap: nat, P: Snapshot, fuel: nat)
    requires t.Quad? && Known(t, P) && forall q :: q in held ==> q in P
    ensures Known(Redistribute(t, held, b, cap, P, fuel), P)
    decreases fuel, 2, |held|
  {
    if held != [] {
      assert forall q :: q in held[..|held| - 1] ==> q in held;
      RedistributeKeepsKnown(t, held[..|held| - 1], b, cap, P, fuel);
      InsertChildrenKeepsKnown(Redistribute(t, held[..|held| - 1], b, cap, P, fuel), b, cap, held[|held| - 1], P, fuel);
    }
  }

  /** A node of the tree.  `divided` is set once, by `Subdivide`; from then
      on `points` is empty and the four child fields are set.  `Model` is the
      subtree as a value, `Repr` the nodes it is made of. */
  class QuadTree {
    const boundary: Rect
    const capacity: nat
    var points: seq<Particle>
    var divided: bool
    var northwest: QuadTree?
    var northeast: QuadTree?
    var southwest: QuadTree?
    var southeast: QuadTree?
    var totalMass: real
    var totalCharge: real
    var totalMagneticMoment: real
    var totalAngularMomentum: real
    var centerOfMass: Vec
    ghost var Repr: set<QuadTree>
    ghost var Model: Tree

    /** `c` is the child on quadrant `q`: it lies in `Repr`, owns a part of
        it that excludes this node, and shares this node's capacity. */
    ghost predicate Owns(c: QuadTree?, q: Quad)
      reads this`Repr, Repr - {this}
    {
      c != null && c in Repr && c != this && c.Repr <= Repr && this !in c.Repr &&
      c.boundary == Quadrant(boundary, q) && c.capacity == capacity
    }

    /** The four children exist, own disjoint parts of `Repr` and cover the
        four quadrants of this box. */
    ghost predicate Shape()
      reads this`Repr, this`northwest, this`northeast, this`southwest, this`southeast, Repr - {this}
    {
      this in Repr &&
      Owns(northwest, NW) && Owns(northeast, NE) && Owns(southwest, SW) && Owns(southeast, SE) &&
      northwest.Repr !! northeast.Repr && northwest.Repr !! southwest.Repr && northwest.Repr !! southeast.Repr &&
      northeast.Repr !! southwest.Repr && northeast.Repr !! southeast.Repr && southwest.Repr !! southeast.Repr
    }

    ghost predicate ChildrenValid()
      reads this`Repr, this`northwest, this`northeast, this`southwest, this`southeast, Repr - {this}
      requires Shape()
      decreases Repr, 0
    {
      northwest.Valid() && northeast.Valid() && southwest.Valid() && southeast.Valid()
    }

    ghost function ChildModel(): (m: Tree)
      reads this`Repr, this`northwest, this`northeast, this`southwest, this`southeast, Repr - {this}
      requires Shape()
      ensures m.Quad?
    {
      Quad(northwest.Model, northeast.Model, southwest.Model, southeast.Model)
    }

    /** A leaf's totals are zero until it first holds a particle. */
    ghost predicate ZeroTotals()
      reads this
    {
      totalMass == 0.0 && totalCharge == 0.0 && totalMagneticMoment == 0.0 && totalAngularMomentum == 0.0
    }

    ghost predicate Valid()
      reads this, Repr
      decreases Repr, 1
    {
      this in Repr &&
      if divided then Shape() && points == [] && ChildrenValid() && Model == ChildModel()
      else Model == Leaf(points) && (points == [] ==> ZeroTotals())
    }

    /** `new QuadTree(boundary, capacity)`: an empty leaf whose centre of mass
        starts at the centre of its box. */
    constructor (boundary: Rect, capacity: nat)
      ensures Valid() && Repr == {this} && Model == Leaf([])
      ensures this.boundary == boundary && this.capacity == capacity
      ensures !divided && ZeroTotals() && centerOfMass == Vec(boundary.x, boundary.y)
    {
      this.boundary := boundary;
      this.capacity := capacity;
      points := [];
      divided := false;
      northwest, northeast, southwest, southeast := null, null, null, null;
      totalMass, totalCharge, totalMagneticMoment, totalAngularMomentum := 0.0, 0.0, 0.0, 0.0;
      centerOfMass := Vec(boundary.x, boundary.y);
      Repr := {this};
      Model := Leaf([]);
    }

    /** `subdivide`: four fresh empty children on the quadrants; the held
        points stay until `Insert` has handed them on. */
    method Subdivide()
      requires Valid() && !divided
      modifies this`northwest, this`northeast, this`southwest, this`southeast, this`divided, this`Repr
      ensures divided && points == old(points) && Model == old(Model)
      ensures Shape() && ChildrenValid() && ChildModel() == EmptyQuad
      ensures fresh(Repr - old(Repr))
    {
      var nw, ne, sw, se := NewChildren(boundary, capacity);
      Attach(nw, ne, sw, se);
    }

    /** Hang four new children under this node and mark it divided. */
    method Attach(nw: QuadTree, ne: QuadTree, sw: QuadTree, se: QuadTree)
      modifies this`northwest, this`northeast, this`southwest, this`southeast, this`divided, this`Repr
      ensures northwest == nw && northeast == ne && southwest == sw && southeast == se
      ensures divided && Repr == old(Repr) + {nw, ne, sw, se}
    {
      northwest, northeast, southwest, southeast := nw, ne, sw, se;
      divided := true;
      Repr := Repr + {nw, ne, sw, se};
    }

    /** The four empty leaves `subdivide` creates, on the quadrants of `b`. */
    static method NewChildren(b: Rect, cap: nat) returns (nw: QuadTree, ne: QuadTree, sw: QuadTree, se: QuadTree)
      ensures fresh(nw) && fresh(ne) && fresh(sw) && fresh(se)
      ensures nw != ne && nw != sw && nw != se && ne != sw && ne != se && sw != se
      ensures nw.Valid() && nw.Repr == {nw} && nw.Model == Leaf([]) && nw.boundary == Quadrant(b, NW) && nw.capacity == cap
      ensures ne.Valid() && ne.Repr == {ne} && ne.Model == Leaf([]) && ne.boundary == Quadrant(b, NE) && ne.capacity == cap
      ensures sw.Valid() && sw.Repr == {sw} && sw.Model == Leaf([]) && sw.boundary == Quadrant(b, SW) && sw.capacity == cap
      ensures se.Valid() && se.Repr == {se} && se.Model == Leaf([]) && se.boundary == Quadrant(b, SE) && se.capacity == cap
    {
      var x, y, hw, hh := b.x, b.y, b.w / 2.0, b.h / 2.0;
      nw := new QuadTree(Rect(x - hw, y - hh, hw, hh), cap);
      ne := new QuadTree(Rect(x + hw, y - hh, hw, hh), cap);
      sw := new QuadTree(Rect(x - hw, y + hh, hw, hh), cap);
      se := new QuadTree(Rect(x + hw, y + hh, hw, hh), cap);
    }

    /** `insert`: the new subtree and the answer are those of `InsertInto`
        on the old subtree, with positions read through the snapshot `P`. */
    method Insert(p: Particle, ghost P: Snapshot, fuel: nat) returns (ok: bool)
      requires Valid() && Current(P) && p in P && Known(Model, P)
      modifies Repr
      decreases fuel, 0
      ensures Valid() && fresh(Repr - old(Repr)) && Current(P)
      ensures (Model, ok) == InsertInto(old(Model), boundary, capacity, p, P, fuel)
      ensures !boundary.Contains(p.pos) ==> !ok && Repr == old(Repr) && Model == old(Model)
    {
      if !boundary.Contains(p.pos) {
        return false;
      }
      if |points| < capacity && !divided {
        points := points + [p];
        Model := Leaf(points);
        return true;
      }
      if fuel == 0 {
        return false;
      }
      ok := PassDown(p, P, fuel - 1);
    }

    /** The rest of `insert` for a node that is full or divided: split it if
        it is still a leaf, then offer `p` to the children in order. */
    method PassDown(p: Particle, ghost P: Snapshot, fuel: nat) returns (ok: bool)
      requires Valid() && Current(P) && p in P && Known(Model, P)
      modifies Repr
      decreases fuel, 5
      ensures Valid() && fresh(Repr - old(Repr)) && Current(P)
      ensures (Model, ok) == InsertChildren(if old(divided) then old(Model) else Redistribute(EmptyQuad, old(points), boundary, capacity, P, fuel),
                                            boundary, capacity, p, P, fuel)
    {
      if !divided {
        ghost var held := points;
        Split(P, fuel);
        RedistributeKeepsKnown(EmptyQuad, held, boundary, capacity, P, fuel);
      }
      InsertChildrenKeepsKnown(ChildModel(), boundary, capacity, p, P, fuel);
      ok := InsertIntoChildren(p, P, fuel);
      Model := ChildModel();
    }

    /** The split inside `insert`: subdivide, hand every held point to the
        children in order, then drop the held points. */
    method Split(ghost P: Snapshot, fuel: nat)
      requires Valid() && !divided && Current(P) && Known(Model, P)
      modifies Repr
      decreases fuel, 4
      ensures divided && points == [] && Model == old(Model)
      ensures Shape() && ChildrenValid() && fresh(Repr - old(Repr)) && Current(P)
      ensures ChildModel() == Redistribute(EmptyQuad, old(points), boundary, capacity, P, fuel)
    {
      var held := points;
      Subdivide();
      Reinsert(held, P, fuel);
      points := [];
    }

    /** `for (const p of this.points) nw.insert(p) || ne.insert(p) || …`:
        the children end as `Redistribute` of their old subtrees. */
    method Reinsert(held: seq<Particle>, ghost P: Snapshot, fuel: nat)
      requires Shape() && ChildrenValid() && Current(P) && Known(ChildModel(), P)
      requires forall q :: q in held ==> q in P
      modifies Repr
      decreases fuel, 3
      ensures Shape() && ChildrenValid() && fresh(Repr - old(Repr)) && Current(P)
      ensures divided == old(divided) && points == old(points) && Model == old(Model)
      ensures ChildModel() == Redistribute(old(ChildModel()), held, boundary, capacity, P, fuel)
    {
      ghost var t := ChildModel();
      var i := 0;
      while i < |held|
        invariant 0 <= i <= |held|
        invariant divided == old(divided) && points == old(points) && Model == old(Model)
        invariant Shape() && ChildrenValid() && fresh(Repr - old(Repr)) && Current(P)
        invariant ChildModel() == Redistribute(t, held[..i], boundary, capacity, P, fuel)
      {
        assert held[..i + 1][..i] == held[..i];
        assert forall q :: q in held[..i] ==> q in held;
        RedistributeKeepsKnown(t, held[..i], boundary, capacity, P, fuel);
        InsertChildrenKeepsKnown(ChildModel(), boundary, capacity, held[i], P, fuel);
        var _ := InsertIntoChildren(held[i], P, fuel);
        i := i + 1;
      }
      assert held[..i] == held;
    }

    /** `nw.insert(p) || ne.insert(p) || sw.insert(p) || se.insert(p)`. */
    method InsertIntoChildren(p: Particle, ghost P: Snapshot, fuel: nat) returns (ok: bool)
      requires Shape() && ChildrenValid() && Current(P) && p in P && Known(ChildModel(), P)
      modifies Repr
      decreases fuel, 2
      ensures Shape() && ChildrenValid() && fresh(Repr - old(Repr)) && Current(P)
      ensures divided == old(divided) && points == old(points) && Model == old(Model)
      ensures (ChildModel(), ok) == InsertChildren(old(ChildModel()), boundary, capacity, p, P, fuel)
    {
      ok := InsertIntoNorthWest(p, P, fuel);
      if !ok {
        ok := InsertIntoNorthEast(p, P, fuel);
        if !ok {
          ok := InsertIntoSouthWest(p, P, fuel);
          if !ok {
            ok := InsertIntoSouthEast(p, P, fuel);
          }
        }
      }
    }

    /** Grow the footprint by `s`, touching nothing else. */
    ghost method Absorb(s: set<QuadTree>)
      modifies this`Repr
      ensures Repr == old(Repr) + s
    {
      Repr := Repr + s;
    }

    /** Offer `p` to the north-west child; the other three are untouched. */
    method InsertIntoNorthWest(p: Particle, ghost P: Snapshot, fuel: nat) returns (ok: bool)
      requires Shape() && ChildrenValid() && Current(P) && p in P && Known(ChildModel().nw, P)
      modifies this`Repr, Repr - {this}
      decreases fuel, 1
      ensures Shape() && ChildrenValid() && fresh(Repr - old(Repr)) && Current(P)
      ensures (ChildModel().nw, ok) == InsertInto(old(northwest.Model), Quadrant(boundary, NW), capacity, p, P, fuel)
      ensures ChildModel() == old(ChildModel()).(nw := ChildModel().nw)
    {
      ok := northwest.Insert(p, P, fuel);
      Absorb(northwest.Repr);
    }

    /** Offer `p` to the north-east child; the other three are untouched. */
    method InsertIntoNorthEast(p: Particle, ghost P: Snapshot, fuel: nat) returns (ok: bool)
      requires Shape() && ChildrenValid() && Current(P) && p in P && Known(ChildModel().ne, P)
      modifies this`Repr, Repr - {this}
      decreases fuel, 1
      ensures Shape() && ChildrenValid() && fresh(Repr - old(Repr)) && Current(P)
      ensures (ChildModel().ne, ok) == InsertInto(old(northeast.Model), Quadrant(boundary, NE), capacity, p, P, fuel)
      ensures ChildModel() == old(ChildModel()).(ne := ChildModel().ne)
    {
      ok := northeast.Insert(p, P, fuel);
      Absorb(northeast.Repr);
    }

    /** Offer `p` to the south-west child; the other three are untouched. */
    method InsertIntoSouthWest(p: Particle, ghost P: Snapshot, fuel: nat) returns (ok: bool)
      requires Shape() && ChildrenValid() && Current(P) && p in P && Known(ChildModel().sw, P)
      modifies this`Repr, Repr - {this}
      decreases fuel, 1
      ensures Shape() && ChildrenValid() && fresh(Repr - old(Repr)) && Current(P)
      ensures (ChildModel().sw, ok) == InsertInto(old(southwest.Model), Quadrant(boundary, SW), capacity, p, P, fuel)
      ensures ChildModel() == old(ChildModel()).(sw := ChildModel().sw)
    {
      ok := southwest.Insert(p, P, fuel);
      Absorb(southwest.Repr);
    }

    /** Offer `p` to the south-east child; the other three are untouched. */
    method InsertIntoSouthEast(p: Particle, ghost P: Snapshot, fuel: nat) returns (ok: bool)
      requires Shape() && ChildrenValid() && Current(P) && p in P && Known(ChildModel().se, P)
      modifies this`Repr, Repr - {this}
      decreases fuel, 1
      ensures Shape() && ChildrenValid() && fresh(Repr - old(Repr)) && Current(P)
      ensures (ChildModel().se, ok) == InsertInto(old(southeast.Model), Quadrant(boundary, SE), capacity, p, P, fuel)
      ensures ChildModel() == old(ChildModel()).(se := ChildModel().se)
    {
      ok := southeast.Insert(p, P, fuel);
      Absorb(southeast.Repr);
    }

    /** The children in the order the source lists them. */
    ghost function Children(): seq<QuadTree>
      reads this`Repr, this`northwest, this`northeast, this`southwest, this`southeast, Repr - {this}
      requires Shape()
    {
      [northwest, northeast, southwest, southeast]
    }

    /** The node's totals are `mass`, `charge`, `magMom` and `angMom`, and
        when the mass is positive its centre of mass is the moment divided by
        the mass. */
    ghost predicate Sums(mass: real, charge: real, magMom: real, angMom: real, comX: real, comY: real)
      reads this
    {
      totalMass == mass && totalCharge == charge &&
      totalMagneticMoment == magMom && totalAngularMomentum == angMom &&
      (0.0 < mass ==> centerOfMass == Vec(comX / mass, comY / mass))
    }

    /** All four children are aggregated. */
    ghost predicate ChildrenAggregated(P: Snapshot)
      reads this`Repr, this`northwest, this`northeast, this`southwest, this`southeast, Repr - {this}
      requires Shape() && ChildrenValid()
      decreases Repr, 0
    {
      northwest.Aggregated(P) && northeast.Aggregated(P) && southwest.Aggregated(P) && southeast.Aggregated(P)
    }

    /** What `calculateMassDistribution` leaves behind, the particles read
        through `P`: a non-empty leaf sums its particles, a divided node sums
        what its aggregated children contribute. */
    ghost predicate Aggregated(P: Snapshot)
      requires Valid()
      reads this, Repr
      decreases Repr, 1
    {
      if divided then
        ChildrenValid() && ChildrenAggregated(P) &&
        Sums(SumNodes(Children(), Mass), SumNodes(Children(), Charge),
             SumNodes(Children(), MagneticMoment), SumNodes(Children(), AngularMomentum),
             SumNodes(Children(), MomentX), SumNodes(Children(), MomentY))
      else
        points == [] ||
        Sums(Total(points, Mass, P), Total(points, Charge, P), Total(points, MagneticMoment, P),
             Total(points, AngularMomentum, P), Total(points, MomentX, P), Total(points, MomentY, P))
    }

    /** `calculateMassDistribution`: a post-order pass that writes every
        node's totals and leaves the tree's shape alone.  A node whose mass
        is not positive keeps its old centre of mass. */
    method CalculateMassDistribution(ghost P: Snapshot)
      requires Valid() && Current(P) && Known(Model, P)
      modifies Repr
      decreases Repr, 2
      ensures Valid() && Repr == old(Repr) && Model == old(Model) && Current(P)
      ensures Aggregated(P)
      ensures totalMass <= 0.0 ==> centerOfMass == old(centerOfMass)
    {
      if !divided {
        AggregateLeaf(P);
      } else {
        AggregateNode(P);
      }
    }

    /** The leaf branch: an empty leaf is left alone, otherwise its totals
        become the sums over its points. */
    method AggregateLeaf(ghost P: Snapshot)
      requires Valid() && !divided && Current(P) && Known(Model, P)
      modifies this
      ensures Valid() && Repr == old(Repr) && Model == old(Model) && Current(P)
      ensures Aggregated(P)
      ensures totalMass <= 0.0 ==> centerOfMass == old(centerOfMass)
    {
      var pts := points;
      if |pts| == 0 {
        return;
      }
      var mass, charge, magMom, angMom, comX, comY := PointSums(P);
      Store(mass, charge, magMom, angMom, comX, comY, P);
    }

    /** The closing assignments of both branches: the totals become the
        sums, and the centre of mass the moment over the mass when the mass
        is positive. */
    method Store(mass: real, charge: real, magMom: real, angMom: real, comX: real, comY: real, ghost P: Snapshot)
      requires Valid() && (divided || points != []) && Current(P)
      modifies this`totalMass, this`totalCharge, this`totalMagneticMoment, this`totalAngularMomentum, this`centerOfMass
      ensures Valid() && Current(P) && Sums(mass, charge, magMom, angMom, comX, comY)
      ensures totalMass <= 0.0 ==> centerOfMass == old(centerOfMass)
    {
      Write(mass, charge, magMom, angMom, comX, comY);
    }

    /** The assignments themselves. */
    method Write(mass: real, charge: real, magMom: real, angMom: real, comX: real, comY: real)
      modifies this`totalMass, this`totalCharge, this`totalMagneticMoment, this`totalAngularMomentum, this`centerOfMass
      ensures Sums(mass, charge, magMom, angMom, comX, comY)
      ensures mass <= 0.0 ==> centerOfMass == old(centerOfMass)
    {
      totalMass, totalCharge, totalMagneticMoment, totalAngularMomentum := mass, charge, magMom, angMom;
      if mass > 0.0 {
        centerOfMass := Vec(comX / mass, comY / mass);
      }
    }

    /** The leaf's summing loop: the six sums over `points`. */
    method PointSums(ghost P: Snapshot) returns (mass: real, charge: real, magMom: real, angMom: real, comX: real, comY: real)
      requires Current(P) && forall p :: p in points ==> p in P
      ensures mass == Total(points, Mass, P) && charge == Total(points, Charge, P)
      ensures magMom == Total(points, MagneticMoment, P) && angMom == Total(points, AngularMomentum, P)
      ensures comX == Total(points, MomentX, P) && comY == Total(points, MomentY, P)
    {
      var pts := points;
      mass, charge, magMom, angMom, comX, comY := 0.0, 0.0, 0.0, 0.0, 0.0, 0.0;
      for i := 0 to |pts|
        invariant mass == Total(pts[..i], Mass, P) && charge == Total(pts[..i], Charge, P)
        invariant magMom == Total(pts[..i], MagneticMoment, P) && angMom == Total(pts[..i], AngularMomentum, P)
        invariant comX == Total(pts[..i], MomentX, P) && comY == Total(pts[..i], MomentY, P)
      {
        assert pts[..i + 1][..i] == pts[..i];
        var p := pts[i];
        assert BodyOf(P, p) == Body(p.pos, p.mass, p.charge, p.spin);
        mass := mass + p.mass;
        charge := charge + p.charge;
        magMom := magMom + p.charge * p.spin;
        angMom := angMom + p.mass * p.spin;
        comX := comX + p.pos.x * p.mass;
        comY := comY + p.pos.y * p.mass;
      }
      assert pts[..|pts|] == pts;
    }

    /** The divided branch: aggregate the four children, then sum what they
        contribute. */
    method AggregateNode(ghost P: Snapshot)
      requires Valid() && divided && Current(P) && Known(Model, P)
      modifies Repr
      decreases Repr, 1
      ensures Valid() && Repr == old(Repr) && Model == old(Model) && Current(P)
      ensures Aggregated(P)
      ensures totalMass <= 0.0 ==> centerOfMass == old(centerOfMass)
    {
      AggregateNorthWest(P);
      AggregateNorthEast(P);
      AggregateSouthWest(P);
      AggregateSouthEast(P);
      Combine(P);
    }

    /** The divided node's sums once its four children are aggregated. */
    method Combine(ghost P: Snapshot)
      requires Valid() && divided && Current(P)
      requires ChildrenAggregated(P)
      modifies this`totalMass, this`totalCharge, this`totalMagneticMoment, this`totalAngularMomentum, this`centerOfMass
      ensures Valid() && Repr == old(Repr) && Model == old(Model) && Current(P)
      ensures Aggregated(P)
      ensures totalMass <= 0.0 ==> centerOfMass == old(centerOfMass)
    {
      var mass, charge, magMom, angMom, comX, comY := ChildSums();
      StoreNode(mass, charge, magMom, angMom, comX, comY, P);
    }

    /** Store the children's sums in a divided node. */
    method StoreNode(mass: real, charge: real, magMom: real, angMom: real, comX: real, comY: real, ghost P: Snapshot)
      requires Valid() && divided && ChildrenAggregated(P) && Current(P)
      requires mass == SumNodes(Children(), Mass) && charge == SumNodes(Children(), Charge)
      requires magMom == SumNodes(Children(), MagneticMoment) && angMom == SumNodes(Children(), AngularMomentum)
      requires comX == SumNodes(Children(), MomentX) && comY == SumNodes(Children(), MomentY)
      modifies this`totalMass, this`totalCharge, this`totalMagneticMoment, this`totalAngularMomentum, this`centerOfMass
      ensures Valid() && Repr == old(Repr) && Model == old(Model) && Current(P)
      ensures Aggregated(P)
      ensures totalMass <= 0.0 ==> centerOfMass == old(centerOfMass)
    {
      assert northwest != this && northeast != this && southwest != this && southeast != this;
      Store(mass, charge, magMom, angMom, comX, comY, P);
      SumNodesUnchanged(Children());
    }

    /** The divided node's summing loop: the six sums of what the children
        contribute, in the source's child order. */
    method ChildSums() returns (mass: real, charge: real, magMom: real, angMom: real, comX: real, comY: real)
      requires Shape()
      ensures mass == SumNodes(Children(), Mass) && charge == SumNodes(Children(), Charge)
      ensures magMom == SumNodes(Children(), MagneticMoment) && angMom == SumNodes(Children(), AngularMomentum)
      ensures comX == SumNodes(Children(), MomentX) && comY == SumNodes(Children(), MomentY)
    {
      var children := [northwest, northeast, southwest, southeast];
      mass, charge, magMom, angMom, comX, comY := 0.0, 0.0, 0.0, 0.0, 0.0, 0.0;
      for i := 0 to |children|
        invariant mass == SumNodes(children[..i], Mass) && charge == SumNodes(children[..i], Charge)
        invariant magMom == SumNodes(children[..i], MagneticMoment) && angMom == SumNodes(children[..i], AngularMomentum)
        invariant comX == SumNodes(children[..i], MomentX) && comY == SumNodes(children[..i], MomentY)
      {
        assert children[..i + 1][..i] == children[..i];
        var c := children[i];
        mass := mass + c.totalMass;
        charge := charge + c.totalCharge;
        magMom := magMom + c.totalMagneticMoment;
        angMom := angMom + c.totalAngularMomentum;
        comX := comX + c.centerOfMass.x * c.totalMass;
        comY := comY + c.centerOfMass.y * c.totalMass;
      }
      assert children[..|children|] == children;
    }

    /** `northwest.calculateMassDistribution()`; a sibling that was aggregated
        stays so. */
    method AggregateNorthWest(ghost P: Snapshot)
      requires Valid() && divided && ChildrenValid() && Current(P) && Known(ChildModel().nw, P)
      modifies Repr - {this}
      decreases Repr, 0
      ensures Valid() && Repr == old(Repr) && Model == old(Model) && divided && ChildrenValid() && Current(P)
      ensures northwest.Aggregated(P)
      ensures old(northeast.Aggregated(P)) ==> northeast.Aggregated(P)
      ensures old(southwest.Aggregated(P)) ==> southwest.Aggregated(P)
      ensures old(southeast.Aggregated(P)) ==> southeast.Aggregated(P)
    {
      northwest.CalculateMassDistribution(P);
    }

    /** `northeast.calculateMassDistribution()`; a sibling that was aggregated
        stays so. */
    method AggregateNorthEast(ghost P: Snapshot)
      requires Valid() && divided && ChildrenValid() && Current(P) && Known(ChildModel().ne, P)
      modifies Repr - {this}
      decreases Repr, 0
      ensures Valid() && Repr == old(Repr) && Model == old(Model) && divided && ChildrenValid() && Current(P)
      ensures northeast.Aggregated(P)
      ensures old(northwest.Aggregated(P)) ==> northwest.Aggregated(P)
      ensures old(southwest.Aggregated(P)) ==> southwest.Aggregated(P)
      ensures old(southeast.Aggregated(P)) ==> southeast.Aggregated(P)
    {
      northeast.CalculateMassDistribution(P);
    }

    /** `southwest.calculateMassDistribution()`; a sibling that was aggregated
        stays so. */
    method AggregateSouthWest(ghost P: Snapshot)
      requires Valid() && divided && ChildrenValid() && Current(P) && Known(ChildModel().sw, P)
      modifies Repr - {this}
      decreases Repr, 0
      ensures Valid() && Repr == old(Repr) && Model == old(Model) && divided && ChildrenValid() && Current(P)
      ensures southwest.Aggregated(P)
      ensures old(northwest.Aggregated(P)) ==> northwest.Aggregated(P)
      ensures old(northeast.Aggregated(P)) ==> northeast.Aggregated(P)
      ensures old(southeast.Aggregated(P)) ==> southeast.Aggregated(P)
    {
      southwest.CalculateMassDistribution(P);
    }

    /** `southeast.calculateMassDistribution()`; a sibling that was aggregated
        stays so. */
    method AggregateSouthEast(ghost P: Snapshot)
      requires Valid() && divided && ChildrenValid() && Current(P) && Known(ChildModel().se, P)
      modifies Repr - {this}
      decreases Repr, 0
      ensures Valid() && Repr == old(Repr) && Model == old(Model) && divided && ChildrenValid() && Current(P)
      ensures southeast.Aggregated(P)
      ensures old(northwest.Aggregated(P)) ==> northwest.Aggregated(P)
      ensures old(northeast.Aggregated(P)) ==> northeast.Aggregated(P)
      ensures old(southwest.Aggregated(P)) ==> southwest.Aggregated(P)
    {
      southeast.CalculateMassDistribution(P);
    }

    /** `query`: starting from `found` (a new list when it is absent), a box
        that misses `range` adds nothing, a leaf adds its particles inside
        `range` in order, and a divided node passes the list through its four
        children in order.  On a well-formed tree this is every stored
        particle inside `range`, in leaf order, after what `found` held. */
    method Query(range: Rect, found: Option<seq<Particle>>, ghost P: Snapshot) returns (result: seq<Particle>)
      requires Valid() && Current(P) && Known(Model, P)
      decreases Repr, 1
      ensures result == Collect(Model, boundary, range, P, found.GetOr([]))
      ensures Wf(Model, boundary, capacity, P) && 0.0 <= boundary.w && 0.0 <= boundary.h ==>
                result == found.GetOr([]) + InRange(Elements(Model), range, P)
    {
      result := if found.Some? then found.value else [];
      ghost var start := result;
      if !boundary.Intersects(range) {
      } else if !divided {
        result := QueryPoints(range, result, P);
      } else {
        result := QueryChildren(range, result, P);
      }
      if Wf(Model, boundary, capacity, P) && 0.0 <= boundary.w && 0.0 <= boundary.h {
        CollectExact(Model, boundary, capacity, range, P, start);
      }
    }

    /** The divided branch of `query`: the list passes through the four
        children in order. */
    method QueryChildren(range: Rect, found: seq<Particle>, ghost P: Snapshot) returns (result: seq<Particle>)
      requires Valid() && divided && Current(P) && Known(Model, P)
      decreases Repr, 0
      ensures result == Collect(Model.se, Quadrant(boundary, SE), range, P,
                          Collect(Model.sw, Quadrant(boundary, SW), range, P,
                            Collect(Model.ne, Quadrant(boundary, NE), range, P,
                              Collect(Model.nw, Quadrant(boundary, NW), range, P, found))))
    {
      result := northwest.Query(range, Some(found), P);
      result := northeast.Query(range, Some(result), P);
      result := southwest.Query(range, Some(result), P);
      result := southeast.Query(range, Some(result), P);
    }

    /** With no negative mass, an aggregated node contributes to each sum
        exactly the sum over the particles its subtree stores. */
    lemma {:induction false} AggregatedTotal(P: Snapshot, q: Quantity)
      requires Valid() && Aggregated(P) && MassesNonNegative(Model, P)
      ensures NodeTotal(this, q) == Total(Elements(Model), q, P)
      decreases Repr, 2
    {
      if divided {
        NodeAggregatedTotal(P, q);
      } else {
        LeafAggregatedTotal(P, q);
      }
    }

    lemma {:induction false} LeafAggregatedTotal(P: Snapshot, q: Quantity)
      requires Valid() && !divided && Aggregated(P) && MassesNonNegative(Model, P)
      ensures NodeTotal(this, q) == Total(Elements(Model), q, P)
    {
      assert Elements(Model) == points;
      if points != [] {
        MasslessHasNoMoment(points, P);
        Contribution(this, Total(points, Mass, P), Total(points, Charge, P), Total(points, MagneticMoment, P),
                     Total(points, AngularMomentum, P), Total(points, MomentX, P), Total(points, MomentY, P));
      }
    }

    lemma {:induction false} NodeAggregatedTotal(P: Snapshot, q: Quantity)
      requires Valid() && divided && Aggregated(P) && MassesNonNegative(Model, P)
      ensures NodeTotal(this, q) == Total(Elements(Model), q, P)
      decreases Repr, 1
    {
      ChildrenTotal(P, q);
      ChildrenTotal(P, Mass);
      ChildrenTotal(P, MomentX);
      ChildrenTotal(P, MomentY);
      MasslessHasNoMoment(Elements(Model), P);
      var ns := Children();
      Contribution(this, SumNodes(ns, Mass), SumNodes(ns, Charge), SumNodes(ns, MagneticMoment),
                   SumNodes(ns, AngularMomentum), SumNodes(ns, MomentX), SumNodes(ns, MomentY));
    }

    /** The four children's contributions add up to the sum over the
        divided node's particles. */
    lemma {:induction false} ChildrenTotal(P: Snapshot, q: Quantity)
      requires Valid() && divided && Aggregated(P) && MassesNonNegative(Model, P)
      ensures SumNodes(Children(), q) == Total(Elements(Model), q, P)
      decreases Repr, 0
    {
      MassesNonNegativeQuad(Model, P);
      northwest.AggregatedTotal(P, q);
      northeast.AggregatedTotal(P, q);
      southwest.AggregatedTotal(P, q);
      southeast.AggregatedTotal(P, q);
      TotalQuad(Model, q, P);
      SumNodesFour(northwest, northeast, southwest, southeast, q);
    }

    /** With no negative mass, the centre of mass of an aggregated node
        holding positive mass is the mass-weighted mean position of its
        particles. */
    lemma {:induction false} CenterOfMassIsMean(P: Snapshot)
      requires Valid() && Aggregated(P) && MassesNonNegative(Model, P)
      ensures totalMass == Total(Elements(Model), Mass, P)
      ensures 0.0 < totalMass ==>
                centerOfMass == Vec(Total(Elements(Model), MomentX, P) / totalMass,
                                    Total(Elements(Model), MomentY, P) / totalMass)
    {
      AggregatedTotal(P, Mass);
      if divided {
        ChildrenTotal(P, MomentX);
        ChildrenTotal(P, MomentY);
      }
    }

    /** The leaf loop of `query`: push each held particle inside `range`. */
    method QueryPoints(range: Rect, found: seq<Particle>, ghost P: Snapshot) returns (result: seq<Particle>)
      requires Current(P) && forall p :: p in points ==> p in P
      ensures result == found + InRange(points, range, P)
    {
      var pts := points;
      result := found;
      for i := 0 to |pts|
        invariant result == found + InRange(pts[..i], range, P)
      {
        assert pts[..i + 1][..i] == pts[..i];
        var p := pts[i];
        assert At(P, p) == p.pos;
        if range.Contains(p.pos) {
          result := result + [p];
        }
      }
      assert pts[..|pts|] == pts;
    }
  }

  /** What a node contributes to its parent's sums: its totals, and its
      centre of mass weighted by its mass. */
  function NodeTotal(n: QuadTree, q: Quantity): real
    reads n
  {
    match q
    case Mass => n.totalMass
    case Charge => n.totalCharge
    case MagneticMoment => n.totalMagneticMoment
    case AngularMomentum => n.totalAngularMomentum
    case MomentX => n.centerOfMass.x * n.totalMass
    case MomentY => n.centerOfMass.y * n.totalMass
  }

  /** The sum of `q` over the nodes of `ns`, accumulated front to back. */
  function SumNodes(ns: seq<QuadTree>, q: Quantity): real
    reads ns
  {
    if ns == [] then 0.0 else SumNodes(ns[..|ns| - 1], q) + NodeTotal(ns[|ns| - 1], q)
  }

  /** Sums over nodes that did not change are the sums they were. */
  twostate lemma {:induction false} SumNodesUnchanged(ns: seq<QuadTree>)
    requires forall n :: n in ns ==> unchanged(n)
    ensures forall q :: SumNodes(ns, q) == old(SumNodes(ns, q))
    decreases |ns|
  {
    if ns != [] {
      var init := ns[..|ns| - 1];
      forall n | n in init
        ensures unchanged(n)
      {
        assert n in ns;
      }
      SumNodesUnchanged(init);
      assert ns[|ns| - 1] in ns;
    }
  }

  /** A mass times the mean `c` of a moment `t` gives the moment back, and
      so does a zero mass whose moment vanishes. */
  lemma MomentOfMean(m: real, t: real, c: real)
    requires 0.0 <= m && (0.0 < m ==> c == t / m) && (m == 0.0 ==> t == 0.0)
    ensures c * m == t
  {
  }

  /** A node's contribution once its totals are the given sums: with a
      non-negative mass that carries no moment when it is zero, the mass
      times the centre of mass gives the moments back. */
  lemma Contribution(n: QuadTree, mass: real, charge: real, magMom: real, angMom: real, comX: real, comY: real)
    requires n.Sums(mass, charge, magMom, angMom, comX, comY)
    requires 0.0 <= mass && (mass == 0.0 ==> comX == 0.0 && comY == 0.0)
    ensures NodeTotal(n, Mass) == mass && NodeTotal(n, Charge) == charge
    ensures NodeTotal(n, MagneticMoment) == magMom && NodeTotal(n, AngularMomentum) == angMom
    ensures NodeTotal(n, MomentX) == comX && NodeTotal(n, MomentY) == comY
  {
    MomentOfMean(mass, comX, n.centerOfMass.x);
    MomentOfMean(mass, comY, n.centerOfMass.y);
  }

  lemma SumNodesFour(a: QuadTree, b: QuadTree, c: QuadTree, d: QuadTree, q: Quantity)
    ensures SumNodes([a, b, c, d], q) == NodeTotal(a, q) + NodeTotal(b, q) + NodeTotal(c, q) + NodeTotal(d, q)
  {
    assert [a, b, c, d][..3] == [a, b, c];
    assert [a, b, c][..2] == [a, b];
    assert [a, b][..1] == [a];
    assert [a][..0] == [];
    assert SumNodes([a], q) == NodeTotal(a, q);
    assert SumNodes([a, b], q) == NodeTotal(a, q) + NodeTotal(b, q);
    assert SumNodes([a, b, c], q) == NodeTotal(a, q) + NodeTotal(b, q) + NodeTotal(c, q);
  }

  /** What the aggregate pass leaves at a node. */
  datatype Summary = Summary(mass: real, charge: real, magMom: real, angMom: real, com: Vec)

  function SummaryOf(t: QuadTree): Summary
    reads t
  {
    Summary(t.totalMass, t.totalCharge, t.totalMagneticMoment, t.totalAngularMomentum, t.centerOfMass)
  }

  /** `calculateMassDistribution` is idempotent: run a second time, it
      leaves the root's totals and centre of mass as the first run did. */
  method AggregateTwice(qt: QuadTree, ghost P: Snapshot) returns (first: Summary, second: Summary)
    requires qt.Valid() && Current(P) && Known(qt.Model, P) && MassesNonNegative(qt.Model, P)
    modifies qt.Repr
    ensures first == second
  {
    qt.CalculateMassDistribution(P);
    first := SummaryOf(qt);
    qt.AggregatedTotal(P, Charge);
    qt.AggregatedTotal(P, MagneticMoment);
    qt.AggregatedTotal(P, AngularMomentum);
    qt.CenterOfMassIsMean(P);
    qt.CalculateMassDistribution(P);
    second := SummaryOf(qt);
    qt.AggregatedTotal(P, Charge);
    qt.AggregatedTotal(P, MagneticMoment);
    qt.AggregatedTotal(P, AngularMomentum);
    qt.CenterOfMassIsMean(P);
  }
}
