/** The renderer's trail buffer (src/renderer.js): for every particle a flat
    list `x0, y0, x1, y1, ...` of its recent positions, keyed on its id and
    capped at `maxTrailLength` positions.  Drawing is not modelled. */
module Rendering {
  import opened Vectors
  import opened Particles

  /** Positions a trail keeps. */
  const MaxTrailLength: nat := 200

  /** What a trail update reads from a particle. */
  datatype Sample = Sample(id: int, x: real, y: real)

  function SampleOf(p: Particle): Sample
    reads p
  {
    Sample(p.id, p.pos.x, p.pos.y)
  }

  function SamplesOf(ps: seq<Particle>): (r: seq<Sample>)
    reads ps
    ensures |r| == |ps|
    ensures forall i :: 0 <= i < |ps| ==> r[i] == SampleOf(ps[i])
  {
    if ps == [] then [] else SamplesOf(ps[..|ps| - 1]) + [SampleOf(ps[|ps| - 1])]
  }

  type Trails = map<int, seq<real>>

  /** The trail stored for `id`, or a fresh empty one. */
  function TrailOf(h: Trails, id: int): seq<real> {
    if id in h then h[id] else []
  }

  /** A trail after one more position: the pair is appended and, once the
      trail is longer than `2 * maxLen` numbers, its two oldest are dropped. */
  function Extended(trail: seq<real>, x: real, y: real, maxLen: nat): seq<real> {
    var t := trail + [x, y];
    if |t| > maxLen * 2 then t[2..] else t
  }

  /** The first loop of `updateTrails`: every particle in turn extends the
      trail under its id. */
  function Grown(h: Trails, s: seq<Sample>, maxLen: nat): Trails {
    if s == [] then h
    else
      var g := Grown(h, s[..|s| - 1], maxLen);
      var p := s[|s| - 1];
      g[p.id := Extended(TrailOf(g, p.id), p.x, p.y, maxLen)]
  }

  function Ids(s: seq<Sample>): set<int> {
    set p | p in s :: p.id
  }

  /** The second loop: every key that is not a current id is deleted. */
  function Pruned(h: Trails, ids: set<int>): Trails {
    map k | k in h && k in ids :: h[k]
  }

  /** The trails `updateTrails` leaves behind. */
  function TrailsAfter(h: Trails, s: seq<Sample>, maxLen: nat): Trails {
    Pruned(Grown(h, s, maxLen), Ids(s))
  }

  predicate DistinctIds(s: seq<Sample>) {
    forall i, j :: 0 <= i < |s| && 0 <= j < |s| && s[i].id == s[j].id ==> i == j
  }

  /** Every trail is a whole number of pairs and at most `maxLen` of them. */
  predicate Bounded(h: Trails, maxLen: nat) {
    forall k :: k in h ==> |h[k]| % 2 == 0 && |h[k]| <= 2 * maxLen
  }

  // ---------------------------------------------------------------------
  // One trail

  /** Extending ends the trail at the new position, and a fresh trail
      becomes exactly that position. */
  lemma ExtendedEndsAt(trail: seq<real>, x: real, y: real, maxLen: nat)
    requires 1 <= maxLen && |trail| % 2 == 0
    ensures var r := Extended(trail, x, y, maxLen);
      2 <= |r| && r[|r| - 2] == x && r[|r| - 1] == y
    ensures Extended([], x, y, maxLen) == [x, y]
  {
  }

  /** Extending keeps a trail a whole number of at most `maxLen` pairs. */
  lemma ExtendedBounded(trail: seq<real>, x: real, y: real, maxLen: nat)
    requires |trail| % 2 == 0 && |trail| <= 2 * maxLen
    ensures var r := Extended(trail, x, y, maxLen);
      |r| % 2 == 0 && |r| <= 2 * maxLen
  {
  }

  /** A full trail loses exactly its oldest pair and keeps the rest in
      order; a trail with room only grows. */
  lemma ExtendedDropsOldest(trail: seq<real>, x: real, y: real, maxLen: nat)
    ensures |trail| + 2 <= 2 * maxLen ==> Extended(trail, x, y, maxLen) == trail + [x, y]
    ensures 2 <= |trail| && 2 * maxLen < |trail| + 2 ==>
      Extended(trail, x, y, maxLen) == trail[2..] + [x, y]
  {
    if 2 <= |trail| && 2 * maxLen < |trail| + 2 {
      assert (trail + [x, y])[2..] == trail[2..] + [x, y];
    }
  }

  // ---------------------------------------------------------------------
  // The whole buffer

  lemma {:induction false} GrownKeys(h: Trails, s: seq<Sample>, maxLen: nat)
    ensures Grown(h, s, maxLen).Keys == h.Keys + Ids(s)
    decreases |s|
  {
    if s != [] {
      GrownKeys(h, s[..|s| - 1], maxLen);
      assert s == s[..|s| - 1] + [s[|s| - 1]];
      assert Ids(s) == Ids(s[..|s| - 1]) + {s[|s| - 1].id};
    }
  }

  /** After `updateTrails` the keys are exactly the current ids. */
  lemma {:induction false} TrailsAfterKeys(h: Trails, s: seq<Sample>, maxLen: nat)
    ensures TrailsAfter(h, s, maxLen).Keys == Ids(s)
  {
    GrownKeys(h, s, maxLen);
  }

  /** With distinct ids each particle's trail is its own old trail (or a
      fresh one) extended by its position. */
  lemma {:induction false} GrownAt(h: Trails, s: seq<Sample>, maxLen: nat, i: nat)
    requires DistinctIds(s) && i < |s|
    ensures s[i].id in Grown(h, s, maxLen)
    ensures Grown(h, s, maxLen)[s[i].id] == Extended(TrailOf(h, s[i].id), s[i].x, s[i].y, maxLen)
    decreases |s|
  {
    var init := s[..|s| - 1];
    assert DistinctIds(init);
    if i < |s| - 1 {
      GrownAt(h, init, maxLen, i);
      assert s[|s| - 1].id != s[i].id;
    } else {
      GrownUntouched(h, init, maxLen, s[i].id);
    }
  }

  /** An id nobody in `s` carries keeps its trail. */
  lemma {:induction false} GrownUntouched(h: Trails, s: seq<Sample>, maxLen: nat, id: int)
    requires forall p :: p in s ==> p.id != id
    ensures TrailOf(Grown(h, s, maxLen), id) == TrailOf(h, id)
    decreases |s|
  {
    if s != [] {
      assert forall p :: p in s[..|s| - 1] ==> p in s;
      assert s[|s| - 1] in s;
      GrownUntouched(h, s[..|s| - 1], maxLen, id);
    }
  }

  /** Each current particle has its own trail, ending at its position; a
      particle seen for the first time starts with exactly its position. */
  lemma {:induction false} TrailPerParticle(h: Trails, s: seq<Sample>, maxLen: nat, i: nat)
    requires DistinctIds(s) && i < |s| && 1 <= maxLen && Bounded(h, maxLen)
    ensures var r := TrailsAfter(h, s, maxLen);
      s[i].id in r &&
      r[s[i].id] == Extended(TrailOf(h, s[i].id), s[i].x, s[i].y, maxLen) &&
      2 <= |r[s[i].id]| && r[s[i].id][|r[s[i].id]| - 2] == s[i].x && r[s[i].id][|r[s[i].id]| - 1] == s[i].y &&
      (s[i].id !in h ==> r[s[i].id] == [s[i].x, s[i].y])
  {
    GrownAt(h, s, maxLen, i);
    assert s[i].id in Ids(s);
    ExtendedEndsAt(TrailOf(h, s[i].id), s[i].x, s[i].y, maxLen);
  }

  lemma {:induction false} GrownBounded(h: Trails, s: seq<Sample>, maxLen: nat)
    requires Bounded(h, maxLen)
    ensures Bounded(Grown(h, s, maxLen), maxLen)
    decreases |s|
  {
    if s != [] {
      GrownBounded(h, s[..|s| - 1], maxLen);
      var g := Grown(h, s[..|s| - 1], maxLen);
      var p := s[|s| - 1];
      ExtendedBounded(TrailOf(g, p.id), p.x, p.y, maxLen);
    }
  }

  /** `updateTrails` keeps every trail a whole number of at most `maxLen`
      pairs. */
  lemma {:induction false} TrailsAfterBounded(h: Trails, s: seq<Sample>, maxLen: nat)
    requires Bounded(h, maxLen)
    ensures Bounded(TrailsAfter(h, s, maxLen), maxLen)
  {
    GrownBounded(h, s, maxLen);
  }

  /** Particles that share an id share one trail: two particles under one
      key leave a single trail holding both positions.  Particles built by
      `new Particle(...)` all carry the same missing id. */
  lemma SharedIdSharesTrail(id: int, a: Vec, b: Vec)
    ensures var r := TrailsAfter(map[], [Sample(id, a.x, a.y), Sample(id, b.x, b.y)], MaxTrailLength);
      r.Keys == {id} && r[id] == [a.x, a.y, b.x, b.y]
  {
    var s := [Sample(id, a.x, a.y), Sample(id, b.x, b.y)];
    assert s[..1] == [Sample(id, a.x, a.y)] && s[..1][..0] == [];
    assert Grown(map[], s[..1][..0], MaxTrailLength) == map[];
    assert Extended([], a.x, a.y, MaxTrailLength) == [a.x, a.y];
    assert Grown(map[], s[..1], MaxTrailLength) == map[id := [a.x, a.y]];
    assert Extended([a.x, a.y], b.x, b.y, MaxTrailLength) == [a.x, a.y, b.x, b.y];
    assert Grown(map[], s, MaxTrailLength) == map[id := [a.x, a.y, b.x, b.y]];
    assert Ids(s) == {id};
  }

  /** One more particle for `Grown` and `Ids`. */
  lemma GrownStep(h: Trails, s: seq<Sample>, i: nat, maxLen: nat)
    requires i < |s|
    ensures var g := Grown(h, s[..i], maxLen);
      Grown(h, s[..i + 1], maxLen) == g[s[i].id := Extended(TrailOf(g, s[i].id), s[i].x, s[i].y, maxLen)]
    ensures Ids(s[..i + 1]) == Ids(s[..i]) + {s[i].id}
  {
    assert s[..i + 1][..i] == s[..i];
    assert s[..i + 1] == s[..i] + [s[i]];
  }

  /** A set is empty or has a member. */
  lemma EmptyOrMember(s: set<int>)
    ensures s == {} || exists k :: k in s
  {
    if forall k :: k !in s {
      assert s == {};
    }
  }

  // ---------------------------------------------------------------------
  // The renderer's state

  class Renderer {
    var trails: bool
    var trailHistory: Trails
    const maxTrailLength: nat

    /** The trail part of `new Renderer(...)`: trails off, none stored. */
    constructor ()
      ensures !trails && trailHistory == map[] && maxTrailLength == MaxTrailLength
    {
      trails := false;
      trailHistory := map[];
      maxTrailLength := MaxTrailLength;
    }

    /** `updateTrails(particles)`. */
    method UpdateTrails(particles: seq<Particle>)
      modifies this`trailHistory
      ensures trailHistory == TrailsAfter(old(trailHistory), SamplesOf(particles), maxTrailLength)
    {
      ghost var s := SamplesOf(particles);
      ghost var h := trailHistory;
      var activeIds: set<int> := {};
      for i := 0 to |particles|
        invariant trailHistory == Grown(h, s[..i], maxTrailLength)
        invariant activeIds == Ids(s[..i])
      {
        GrownStep(h, s, i, maxTrailLength);
        var p := particles[i];
        assert SampleOf(p) == s[i];
        activeIds := activeIds + {p.id};
        var trail := if p.id in trailHistory then trailHistory[p.id] else [];
        trail := trail + [p.pos.x, p.pos.y];
        if |trail| > maxTrailLength * 2 {
          trail := trail[2..];
        }
        assert trail == Extended(TrailOf(trailHistory, s[i].id), s[i].x, s[i].y, maxTrailLength);
        trailHistory := trailHistory[p.id := trail];
      }
      assert s[..|particles|] == s;
      DropInactive(activeIds);
    }

    /** The second loop of `updateTrails`: delete every key that is not an
        active id. */
    method DropInactive(activeIds: set<int>)
      modifies this`trailHistory
      ensures trailHistory == Pruned(old(trailHistory), activeIds)
    {
      ghost var g := trailHistory;
      var keys := trailHistory.Keys;
      while keys != {}
        invariant keys <= g.Keys
        invariant trailHistory == map k | k in g && (k in keys || k in activeIds) :: g[k]
        decreases |keys|
      {
        EmptyOrMember(keys);
        var id :| id in keys;
        if id !in activeIds {
          trailHistory := trailHistory - {id};
        }
        keys := keys - {id};
      }
    }

    /** The trail bookkeeping of `render`: with trails on the buffer is
        updated, with trails off it is emptied. */
    method Render(particles: seq<Particle>)
      modifies this`trailHistory
      ensures trails ==> trailHistory == TrailsAfter(old(trailHistory), SamplesOf(particles), maxTrailLength)
      ensures !trails ==> trailHistory == map[]
    {
      if trails {
        UpdateTrails(particles);
      } else if |trailHistory| > 0 {
        trailHistory := map[];
      }
    }
  }
}
