# physsim in Dafny

This project is a verified model of the discrete core of physsim, a browser
simulator of charged, spinning particles. It covers:
- the Barnes–Hut quadtree the force pass walks;
- the collision bookkeeping: the pair filter, merge, bounce and the compaction of merged-away particles;
- the three boundary policies;
- the driver's spawn, zoom and frame-time clamps;
- the renderer's per-particle trail buffer;
- the charge-to-colour mapping;
- the palette's hex alpha encoder.

All quantities are Dafny `real`s. The model never computes a square root. A
member that needs one takes `root: real -> real`; where its contract depends
on the meaning of the root, it requires `IsSqrt(root)`, which says `root`
returns the non-negative square root of any non-negative number.

The model follows the shape of the source:
- **Objects become classes.** `Vectors.Vec2`, `Particles.Particle`, `Quadtree.QuadTree`, `Rendering.Renderer` and `Simulations.Simulation` are classes whose methods update their fields in place. `Particles.ParticleList` stands for the shared particle array.
- **Pure code becomes values.** Each quadtree node carries a ghost `Model` of its subtree as a `Tree` value. The in-place methods are proved equal to pure functions on that value (`InsertInto`, `Collect`, `Total`), and the source's promises are proved about those functions.
- **Particle ids are explicit.** The particle's own vectors are held as `Vec` values, and its `id` is an explicit constructor argument.

Modules, one per source file:

| module | file |
|---|---|
| `Vectors` | `src/vec2.js` |
| `Particles` | `src/particle.js` |
| `Quadtree` | `src/quadtree.js` |
| `Physics` | `src/physics.js` |
| `Rendering` | `src/renderer.js` |
| `Simulations` | `main.js` |
| `Palette` | `colors.js` |
| `Wrappers` | `Option`, a helper |

The model keeps four details of the code:
- **Despawn.** The code removes particles with a backward `splice` loop, not a forward compaction.
- **Spawn mass.** The code clamps the mass to at least 1 after the jitter, not before it.
- **Early exit of the bounce.** The code skips a bounce only when `v2n − v1n > 0`. A pair whose relative normal velocity is exactly zero is still resolved.
- **Ids.** The code never assigns an id. See Findings.

## Model

| member | source | states |
|---|---|---|
| Vectors.Vec.MagSq | src/vec2.js:39-41 | the squared length is never negative |
| Vectors.AddSubRoundTrip | src/vec2.js:17-27 | adding then subtracting a vector (or the reverse) restores the original |
| Vectors.DotSymmetric | src/vec2.js:52-54 | `a·b = b·a` |
| Vectors.NormalizedIsUnit | src/vec2.js:43-50 | dividing a vector by its positive length gives squared length 1 |
| Vectors.Vec2.constructor | src/vec2.js:2-5 | the new vector has the given components |
| Vectors.Vec2.Set | src/vec2.js:7-11 | both components are overwritten and the same object is returned |
| Vectors.Vec2.Clone | src/vec2.js:13-15 | a fresh object with the same components |
| Vectors.Vec2.Add | src/vec2.js:17-21 | the new value is the old one plus `v`'s value on entry, this object returned |
| Vectors.Vec2.Sub | src/vec2.js:23-27 | the new value is the old one minus `v`'s value on entry, this object returned |
| Vectors.Vec2.Scale | src/vec2.js:29-33 | both components multiplied by `s`, this object returned |
| Vectors.Vec2.MagSq | src/vec2.js:39-41 | `x² + y²`, never negative |
| Vectors.Vec2.Dot | src/vec2.js:52-54 | the dot product, symmetric in the two objects |
| Vectors.Vec2.Normalize | src/vec2.js:35-50 | with a positive length `m` the new value is the old one divided by `m`, so the direction is kept and the length becomes 1; otherwise the vector is left as it was |
| Vectors.Vec2.Sum | src/vec2.js:62-64 | static `add`: a fresh vector holding the sum |
| Vectors.Vec2.Difference | src/vec2.js:66-68 | static `sub`: a fresh vector holding the difference |
| Vectors.AddThenSub | src/vec2.js:17-27 | `a.add(b).sub(b)` on distinct objects restores `a` and leaves `b` alone |
| Vectors.SelfAddThenSub | src/vec2.js:17-27 | `a.add(a).sub(a)` zeroes `a`, so the previous row needs distinct objects |
| Particles.Intensity | src/particle.js:27-28 | intensity lies in [0, 1]; it is 1 from charge magnitude 20 on and otherwise proportional to the magnitude |
| Particles.ColorOf | src/particle.js:18-40 | neutral exactly for charge 0; hue 220 for positive and 10 for negative charge; saturation in [50, 100], lightness in [40, 60] |
| Particles.OppositeChargesDifferOnlyInHue | src/particle.js:27-38 | `c` and `−c` have equal saturation and lightness and differ in hue |
| Particles.Particle.constructor | src/particle.js:4-16 | the position is given; velocity, acceleration, momentum and spin are zero; radius `3·sqrt(mass)`; the colour comes from the charge |
| Particles.Particle.UpdateColor | src/particle.js:43-46 | radius and colour are recomputed from mass and charge; nothing else changes |
| Particles.ParticleList.constructor | main.js:14 | the particle array starts empty |
| Quadtree.ContainsIsClosedBox | src/quadtree.js:11-16 | `contains` is exactly membership in `[x−w, x+w]×[y−h, y+h]` |
| Quadtree.SharedPointIntersects | src/quadtree.js:18-23 | two boxes sharing a point intersect, in either order |
| Quadtree.QuadrantsCover | src/quadtree.js:40-50 | every point of a box lies in one of the four half-size quadrants centred at `(x±w/2, y±h/2)` |
| Quadtree.QuadrantInside | src/quadtree.js:40-50 | with non-negative extents, each quadrant lies inside its parent |
| Quadtree.MasslessHasNoMoment | src/quadtree.js:84-103 | with no negative mass the total mass is non-negative, and when it is zero both mass moments are zero |
| Quadtree.InRangeMembers | src/quadtree.js:139-144 | the range filter keeps exactly the particles whose position the range contains |
| Quadtree.InsertKeepsWf | src/quadtree.js:52-77 | insertion, accepted or not, keeps every leaf at most `capacity` points, each inside its own box |
| Quadtree.InsertChildrenKeepsWf | src/quadtree.js:73-76 | offering a point to the four children keeps the tree invariant |
| Quadtree.RedistributeKeepsWf | src/quadtree.js:64-69 | handing held points to the children keeps the tree invariant |
| Quadtree.LeafTakes | src/quadtree.js:53-60 | a leaf with room accepts exactly the points inside its box, appending them |
| Quadtree.InsertChildrenRoom | src/quadtree.js:73-76 | four fresh leaves with room accept a point of the parent box and hold it once |
| Quadtree.RedistributeFills | src/quadtree.js:62-71 | splitting a leaf hands every held point to exactly one child; the children hold the same multiset |
| Quadtree.InsertElements | src/quadtree.js:52-77 | an accepted point is stored exactly once more; a refused one leaves the stored multiset unchanged |
| Quadtree.AppendElements | src/quadtree.js:57-60 | a leaf with room appends the point and reports success |
| Quadtree.SplitLeafElements | src/quadtree.js:62-77 | a full leaf's split keeps the held points and adds the new one once if accepted |
| Quadtree.DescendElements | src/quadtree.js:73-76 | a divided node adds an accepted point once and otherwise nothing |
| Quadtree.SplitElements | src/quadtree.js:62-76 | split then offer: held points kept, the new one added once if accepted |
| Quadtree.InsertChildrenElements | src/quadtree.js:73-76 | the child chain adds an accepted point once and otherwise nothing |
| Quadtree.WfWithin | src/quadtree.js:52-55 | every point a well-formed tree stores lies inside its root box |
| Quadtree.CollectExact | src/quadtree.js:133-153 | on a well-formed tree the pruned query appends exactly the stored points inside the range, in leaf order, after `found` |
| Quadtree.CollectQuad | src/quadtree.js:146-149 | the four child queries in order append the range's points of the four subtrees in order |
| Quadtree.TotalQuad | src/quadtree.js:105-120 | a divided subtree's sum is the sum of its children's sums |
| Quadtree.QuadTree.constructor | src/quadtree.js:27-38 | an empty undivided leaf with zero totals, centre of mass at the box centre |
| Quadtree.QuadTree.Subdivide | src/quadtree.js:40-50 | four fresh empty children on the quadrants, `divided` set, held points kept |
| Quadtree.QuadTree.Attach | src/quadtree.js:44-49 | the four children are hung under the node and it is marked divided |
| Quadtree.QuadTree.NewChildren | src/quadtree.js:44-47 | four distinct fresh empty leaves on the four quadrants with the parent's capacity |
| Quadtree.QuadTree.Insert | src/quadtree.js:52-77 | the new subtree and result are `InsertInto` of the old; a point outside the box is refused and nothing changes |
| Quadtree.QuadTree.PassDown | src/quadtree.js:62-77 | a full leaf is split and redistributed, then the point goes down the child chain |
| Quadtree.QuadTree.Split | src/quadtree.js:62-71 | subdivide, reinsert the held points, clear `points` |
| Quadtree.QuadTree.Reinsert | src/quadtree.js:64-69 | each held point in order goes down the child chain |
| Quadtree.QuadTree.InsertIntoChildren | src/quadtree.js:73-76 | the short-circuit `nw ‖ ne ‖ sw ‖ se` chain |
| Quadtree.QuadTree.InsertIntoNorthWest | src/quadtree.js:73 | insert into the north-west child, other children untouched |
| Quadtree.QuadTree.InsertIntoNorthEast | src/quadtree.js:74 | insert into the north-east child, other children untouched |
| Quadtree.QuadTree.InsertIntoSouthWest | src/quadtree.js:75 | insert into the south-west child, other children untouched |
| Quadtree.QuadTree.InsertIntoSouthEast | src/quadtree.js:76 | insert into the south-east child, other children untouched |
| Quadtree.QuadTree.CalculateMassDistribution | src/quadtree.js:79-131 | every node's totals are the sums over its subtree; the centre of mass is kept when the mass is not positive |
| Quadtree.QuadTree.AggregateLeaf | src/quadtree.js:80-103 | an empty leaf is left alone; otherwise the leaf stores its point sums |
| Quadtree.QuadTree.Store | src/quadtree.js:96-103 | the totals are written; the centre of mass only when the mass is positive |
| Quadtree.QuadTree.Write | src/quadtree.js:96-103 | the four totals and, for positive mass, the mean position are written |
| Quadtree.QuadTree.PointSums | src/quadtree.js:84-94 | the leaf loop yields the six sums over the held points |
| Quadtree.QuadTree.AggregateNode | src/quadtree.js:104-130 | children aggregated in order, then their sums stored |
| Quadtree.QuadTree.Combine | src/quadtree.js:110-129 | once the children are aggregated, the node stores their combined sums |
| Quadtree.QuadTree.StoreNode | src/quadtree.js:122-129 | the children's sums are stored at a divided node |
| Quadtree.QuadTree.ChildSums | src/quadtree.js:110-120 | the child loop yields the six sums of the children's contributions |
| Quadtree.QuadTree.AggregateNorthWest | src/quadtree.js:105-108 | the north-west child is aggregated and siblings already aggregated stay so |
| Quadtree.QuadTree.AggregateNorthEast | src/quadtree.js:105-108 | the north-east child is aggregated and siblings already aggregated stay so |
| Quadtree.QuadTree.AggregateSouthWest | src/quadtree.js:105-108 | the south-west child is aggregated and siblings already aggregated stay so |
| Quadtree.QuadTree.AggregateSouthEast | src/quadtree.js:105-108 | the south-east child is aggregated and siblings already aggregated stay so |
| Quadtree.QuadTree.Query | src/quadtree.js:133-153 | the result is `Collect`; on a well-formed tree it is `found` followed by exactly the stored particles inside the range |
| Quadtree.QuadTree.QueryChildren | src/quadtree.js:145-150 | the list passes through the four children in order |
| Quadtree.QuadTree.QueryPoints | src/quadtree.js:139-144 | a leaf appends its points inside the range, in order, keeping what `found` held |
| Quadtree.QuadTree.AggregatedTotal | src/quadtree.js:79-131 | after aggregation a node's contribution to each sum equals the sum over all particles in its subtree |
| Quadtree.QuadTree.LeafAggregatedTotal | src/quadtree.js:80-103 | the same for a leaf |
| Quadtree.QuadTree.NodeAggregatedTotal | src/quadtree.js:104-130 | the same for a divided node |
| Quadtree.QuadTree.ChildrenTotal | src/quadtree.js:110-120 | the four children's contributions add up to the subtree's sum |
| Quadtree.QuadTree.CenterOfMassIsMean | src/quadtree.js:101-103 | with positive total mass the centre of mass is the mass-weighted mean position of the subtree's particles |
| Quadtree.Contribution | src/quadtree.js:113-119 | a node holding given sums contributes exactly those sums (a massless one contributes no moment) |
| Quadtree.AggregateTwice | src/quadtree.js:79-131 | running the aggregation twice leaves the root's totals and centre of mass as after the first run |
| Physics.BuiltWf | src/physics.js:19-22 | the built tree satisfies the tree invariant and holds no particle not in the array |
| Physics.BuildTree | src/physics.js:14-23 | a fresh capacity-4 tree over the doubled view box with every particle inserted in order, then aggregated |
| Physics.ResolvedFromOneSide | src/physics.js:89-101 | a pair that passes the filter one way fails it the other way, so each unordered pair is resolved once |
| Physics.UnsetIdsPassBothWays | src/physics.js:96 | with the unset ids of the source both orders of an overlapping live pair pass the filter |
| Physics.MergeConserves | src/physics.js:123-138 | a merge conserves mass, charge, spin and both momentum components, and keeps the pair's mass moment |
| Physics.ResolveMerge | src/physics.js:123-138 | `p1` becomes the merged particle with refreshed radius and colour, `p2`'s mass becomes 0 |
| Physics.NormalIsUnit | src/physics.js:141-152 | the contact normal is a unit vector, also in the coincident case |
| Physics.ContactNormal | src/physics.js:141-152 | the normal equals `Normal`, so by `NormalIsUnit` the caller gets a unit vector, a random unit direction for coincident centres |
| Physics.ElasticConserves | src/physics.js:163-167 | the elastic update conserves `m1·v1n + m2·v2n` and `m1·v1n² + m2·v2n²` |
| Physics.EnergyFromRestitution | src/physics.js:166-167 | a momentum-conserving exchange that reverses the relative velocity conserves kinetic energy |
| Physics.ElasticEqualMassesSwap | src/physics.js:166-167 | with equal masses the normal velocities swap |
| Physics.TangentialConserves | src/physics.js:169-176 | the friction impulse conserves tangential momentum `m1·v1t + m2·v2t` |
| Physics.Capped | src/physics.js:182-188 | the capped velocity is below light speed; slower velocities are kept; faster ones get speed 0.99 |
| Physics.BounceKeepsMidpoint | src/physics.js:197-201 | the overlap push moves both centres oppositely, so their midpoint is unchanged |
| Physics.CapSpeed | src/physics.js:182-188 | the result equals `Capped`, so the caller gets a velocity below light speed that keeps a slower input and gives a faster one speed 0.99 |
| Physics.SetMomentumFromVel | src/physics.js:181-192 | velocity set to the capped composed velocity and momentum to its `γ·m·v` |
| Physics.Exchange | src/physics.js:163-179 | the results equal `Elastic`, `Impulse`, `Tangential` and `SpinAfter`, so by `ElasticConserves` and `TangentialConserves` the caller gets speeds that conserve normal momentum, energy and tangential momentum |
| Physics.ResolveBounce | src/physics.js:140-202 | a separating pair is left unchanged; otherwise both particles take the elastic, friction, speed-cap and push-apart results |
| Physics.LiveMembers | src/physics.js:111-120 | compaction keeps exactly the particles of non-zero mass, with their multiplicity |
| Physics.CompactLive | src/physics.js:111-120 | the array becomes its non-zero-mass particles in their original order |
| Physics.KeptMembers | src/physics.js:61-65 | despawn keeps exactly the particles inside `[−100, w+100]×[−100, h+100]`, with their multiplicity |
| Physics.DespawnOutside | src/physics.js:45-65 | the backward splice loop leaves exactly the kept particles in their original order |
| Physics.WrapLandsInside | src/physics.js:66-70 | a coordinate in `[−w, 2w]` is wrapped into `[0, w]`, and one already inside is kept |
| Physics.ClampInside | src/physics.js:71-76 | with `2r ≤ w` the clamped coordinate is in `[r, w−r]`; it clamped exactly when it was outside; otherwise it is kept |
| Physics.WrapAll | src/physics.js:66-70 | every position is wrapped; every other field of every particle is untouched |
| Physics.BounceAll | src/physics.js:71-77 | every position is clamped; a momentum component is negated exactly when its axis clamped; every other field is untouched |
| Physics.ApplyBoundary | src/physics.js:45-77 | the selected policy: despawn filters and leaves every particle unchanged, loop wraps, walls clamp and reflect; in each case the fields the policy does not write are untouched |
| Rendering.ExtendedEndsAt | src/renderer.js:66-73 | an extended trail ends at the new position; a fresh trail is exactly `[x, y]` |
| Rendering.ExtendedBounded | src/renderer.js:71-74 | an extended trail stays an even length of at most `2·maxLen` |
| Rendering.ExtendedDropsOldest | src/renderer.js:71-74 | below the limit the pair is appended; at the limit exactly the oldest pair is dropped, the rest kept in order |
| Rendering.GrownKeys | src/renderer.js:64-75 | the first loop adds exactly the current ids as keys |
| Rendering.TrailsAfterKeys | src/renderer.js:59-82 | after `updateTrails` the keys are exactly the current ids |
| Rendering.GrownAt | src/renderer.js:64-75 | with distinct ids each particle's trail is its old trail extended by its position |
| Rendering.GrownUntouched | src/renderer.js:64-75 | a trail whose id no particle carries is unchanged by the first loop |
| Rendering.TrailPerParticle | src/renderer.js:59-82 | each current particle has its old trail extended, ending at its position; a new id gets exactly `[x, y]` |
| Rendering.GrownBounded | src/renderer.js:64-75 | the first loop keeps every trail an even length of at most `2·maxLen` |
| Rendering.TrailsAfterBounded | src/renderer.js:59-82 | `updateTrails` keeps every trail an even length of at most `2·maxLen` |
| Rendering.SharedIdSharesTrail | src/renderer.js:64-75 | two particles under one id leave one key whose trail interleaves both positions |
| Rendering.Renderer.constructor | src/renderer.js:9-13 | trails off, empty history, limit 200 |
| Rendering.Renderer.UpdateTrails | src/renderer.js:59-82 | the history becomes `TrailsAfter` of the old history and the current particles |
| Rendering.Renderer.DropInactive | src/renderer.js:77-81 | exactly the keys outside the active set are deleted |
| Rendering.Renderer.Render | src/renderer.js:33-38 | with trails on the history is updated; with trails off it is emptied |
| Simulations.SpawnMass | main.js:66-67 | the spawn mass is at least 1; it is the jittered base unless that is below 1 |
| Simulations.SpawnQuantity | main.js:69-73 | a zero base charge or spin gives exactly zero |
| Simulations.JitterWithinTenPercent | main.js:67-73 | for a draw in `[0, 1)` the jitter stays within a tenth of the base |
| Simulations.SpawnWithinTenPercent | main.js:67-73 | charge and spin lie within ±10% of the base; the mass does too unless clamped to 1 |
| Simulations.DefaultSpawn | main.js:66-73 | without options the mass lands in `[9, 11)` and charge and spin are 0 |
| Simulations.ZoomClamped | main.js:94 | the zoom lies in `[1, 3]` and is the product whenever that is in range |
| Simulations.FrameStep | main.js:106 | the step is at most `0.1·speedScale`, and exactly `rawDt·speedScale` for a short frame |
| Simulations.SpawnFields | main.js:66-73 | the jittered mass, charge and spin are the spawn functions of the options and draws |
| Simulations.NewParticle | main.js:64-88 | a fresh particle at the given position with zero acceleration, whose fields are the computed spawn values, with radius and colour refreshed |
| Simulations.Launch | main.js:77-88 | the stored velocity is the capped request (the request itself below light speed) with momentum `γ·m·v` |
| Simulations.Simulation.constructor | main.js:14-39 | no particles, zoom 1, speed scale 20, clock at 0 |
| Simulations.Simulation.AddParticle | main.js:63-91 | exactly one fresh particle appended with the given position, zero acceleration, the spawn mass, charge, spin, radius, colour and launch velocity and momentum; the others untouched |
| Simulations.Simulation.ZoomBy | main.js:93-96 | the zoom becomes the clamped product |
| Simulations.Simulation.FrameTime | main.js:102-106 | the step is the clamped elapsed time scaled, and the clock advances to the timestamp |
| Palette.ToHexDigits | colors.js:7 | `toString(16)` of a whole number is lowercase hex digits spelling the number, one digit exactly below 16, at most two below 256 |
| Palette.AlphaSuffix | colors.js:7 | for a byte, `_r` keeps `hex` as prefix and appends two lowercase hex digits spelling `round(a·255)`, zero-padded exactly below 16 |
| Palette.AlphaEnds | colors.js:7 | alpha 0 appends "00" and alpha 1 appends "ff" |
| Palette.ThemeAlpha | colors.js:71 | an entry has no alpha exactly when `lA` is missing and, in the dark theme, `dA` too; any alpha it has is the entry's own `lA`, or `dA` in the dark theme |
| Palette.EntryValue | colors.js:72 | the palette value `T[key]` is always a prefix of the printed value, and is printed bare exactly when the theme gives no alpha |
| Palette.LightIgnoresDark | colors.js:71-72 | the light theme prints the same whatever `dA` is |
| Palette.DarkOverrides | colors.js:71-72 | a given `dA` replaces `lA` in the dark theme |
| Palette.EntryAlphaByte | colors.js:72 | with a byte alpha the entry prints `T[key]` followed by exactly two hex digits spelling the byte |
| Palette.RawWithoutAlpha | colors.js:72 | an entry without alphas prints the raw value in both themes |
| Palette.SharedAlpha | colors.js:71 | an entry without a dark alpha prints the same in both themes |
| Palette.GenEndsWithLastEntry | colors.js:70-73 | `gen` ends with the last entry's line after a newline |

## Left out

- The force law, the momentum kick and the drift of `update` (src/physics.js:29-60, 204-256), and src/relativity.js. They are square-root and floating-point formulas. As a result, the boundary policies act on given positions, and the drift and the boundary are modelled as separate passes rather than one loop.
- The velocity re-derivation after a wall bounce (src/physics.js:78-83). It is Lorentz-factor arithmetic. `Physics.BounceAll`, and with it the walls case of `Physics.ApplyBoundary`, leave the velocity as it was and state only the position and momentum updates.
- The candidate loop of `handleCollisions` (src/physics.js:89-109). It queries the tree and dispatches to the resolutions. Its tests are modelled as `Physics.ShouldResolve`, the resolutions and the compaction as methods. The loop itself is not modelled, because the tree it queries holds positions that go stale as the loop moves particles.
- Quadtree.QuadTree.Insert: the recursion takes a `fuel` depth budget. It refuses a point once the budget is spent. The source recurses forever when more than `capacity` points coincide. The model does not prove that every contained point is accepted.
- Quadtree.AggregateTwice: idempotence is stated for the root's summary only. `Quadtree.QuadTree.AggregatedTotal` gives the sums at every node.
- Quadtree.QuadTree.Query: `found` is threaded through as a sequence value, not as one shared array object.
- Physics.ResolveMerge, Physics.ResolveBounce: they require non-zero masses (and radii); the source computes NaN or infinities there. `Physics.NormalDefined` requires the length the normal divides by to be non-zero.
- Physics.WrapAll, Physics.BounceAll, Physics.ApplyBoundary require the array to hold each particle once.
- `update`'s offset arguments are ignored by the source, so boundaries are `[0, width]×[0, height]`.
- Randomness: the draws of `Math.random` (src/physics.js:145-146, main.js:67-73) are parameters. Simulations.Simulation.AddParticle takes three draws. The source draws for charge and spin only when their base is non-zero. With arbitrary draws this changes no outcome.
- Rendering: each trail is a value in the history map, not an array object shared with the map. The drawing methods, the canvas, the theme and the spin angle are not part of this model.
- Particle radius `3·sqrt(mass)` goes through the `root` parameter.
- Palette: the CSS text around `gen`, the palette tables and the injection into the page are not modelled. An alpha outside `[0, 1]` is modelled as the source treats it, but proved about only for bytes 0..255.
- src/ui.js, src/input.js, src/presets.js and src/config.js are not part of this model.
- The `mag` and `dist` methods of `Vec2` are square roots; `mag` appears only inside `Normalize` through `root`.

## Findings

| source | as written | input that shows it | evidently intended | confidence | as-written member | corrected member |
|---|---|---|---|---|---|---|
| src/renderer.js:64-75 | trails are keyed on `p.id`, which `new Particle` (src/particle.js:4-16) never sets, so every particle shares the `undefined` key | two particles at `a` and `b`: one key, trail `[a.x, a.y, b.x, b.y]` | one trail per particle, keyed on distinct ids | not executed | Rendering.SharedIdSharesTrail | Rendering.TrailPerParticle |
| src/physics.js:96 | `p1.id >= p2.id` on unset ids is always false, so the order test never skips | any two live overlapping particles: the pair passes from both sides | each unordered pair resolved once, from the smaller id | not executed | Physics.UnsetIdsPassBothWays | Physics.ResolvedFromOneSide |
