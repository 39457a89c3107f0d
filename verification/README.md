# Particle formations and portrait meshes, in Dafny

This project models the particle engine behind the site's animated background and the
two archived portrait-mesh builders, and proves what they promise.

**The background engine.** This is the `BackgroundParticles` component. It keeps a pool
of 5000 particle records and updates them in place. Two latches record whether the
mouse is in the right or the left half of the canvas:

- While the right latch is set, the nearest free particles are recruited into a DNA
  double helix of two strands of 100.
- While the left latch is set, particles are recruited into a molecule. Each atom of
  the molecule gets a sphere of 32 particles.
- When a latch flips off, its formation is dissolved.

Every frame also:

- eases a bond opacity towards a target read from the mouse;
- puts each atom's sphere centre at the mean position of its members whose sub-slot
  (0 when it has none) is below 8;
- shortens each bond to the two sphere surfaces;
- steps every particle.

**The molecule.** `lactic.ts` is the molecule the engine draws, modelled as constant
tables. Its structural facts are proved: sizes, index ranges, ordering, and that the
bond graph spans all atoms.

**The wireframe portrait.** It samples an image on a 10-pixel grid into depth points
and links point i to points i + 1 and i + C, taking C = ⌊w/10⌋ as the row length. The
sampling lays ⌈w/10⌉ points on a row, so these are the right and lower neighbours only
when the width is a multiple of 10 (see "## Findings").

**The geometric portrait.** It lays one jittered triangle on each 12-pixel cell and
colours it with the floored mean colour of the pixels in its bounding box.

Modules:

- `HostMath`: the numeric host. JS numbers are `real`s. `sin`, `cos`, `sqrt`, `pi` and
  the sphere-point placement are function values in a `Host` record. Lemmas assume only
  the facts they use.
- `Image`: an RGBA byte image.
- `Grid`: counting grid cells and row-major positions.
- `Lactic`: the molecule tables.
- `Selection`: the stable sort by key used to pick the nearest candidates.
- `Particles`: the particle record and the per-particle and per-frame arithmetic.
- `Formation`: the two fills.
- `PoolInvariant`: the invariant of the pool and its preservation.
- `Bonds`: sphere centres and bond strokes.
- `Engine`: the component as a class over an `array<Particle>`.
- `Wireframe`, `Geometric`: the portrait builders.

The core of the engine is the pool invariant `PoolInvariant.PoolValid`. Every handler
and every frame keeps it. It says:

- no particle is in both formations;
- a formation is empty while its latch is off;
- strands hold at most 100 particles, and the molecule at most atoms × 32;
- no two molecule particles share a place on the spheres.

None of these facts is checked locally by the code. The DNA candidate filter at
`BackgroundParticles.tsx:259` does not even exclude molecule members. The invariant
still holds because of how the side tests, the latches and the molecule candidate
filter fit together.

## Model

| member | source | states |
|---|---|---|
| HostMath.RotateScalesNorm | src/components/animations/BackgroundParticles.tsx:230-245 | turning (a, b) by an angle multiplies its squared length by cos² + sin², so a rotation on the unit circle keeps lengths |
| HostMath.SqrtOfZero | src/components/animations/BackgroundParticles.tsx:409 | a true square root is zero exactly at zero |
| HostMath.UnitVector | src/components/animations/BackgroundParticles.tsx:411-413 | a non-zero (dx, dy) divided by its length is a unit vector |
| Image.PixelIndexInRange | src/components/animations/archive/portrait/WireframeAnimation.ts:27-31 | the red, green and blue reads of an in-canvas pixel lie inside the 4·w·h byte buffer |
| Grid.Cells | src/components/animations/archive/portrait/WireframeAnimation.ts:25-26 | the number of values 0, size, 2·size, … below n: c·size ≥ n and, if c > 0, (c−1)·size < n |
| Grid.CellsCount | src/components/animations/archive/portrait/GeometricAnimation.ts:23-24 | loop position k is visited exactly when k·size < n |
| Grid.GridPos | src/components/animations/archive/portrait/WireframeAnimation.ts:25-36 | item i of a row-major grid with `cols` items a row sits at column < cols and i = row·cols + column |
| Grid.GridPosOf | src/components/animations/archive/portrait/WireframeAnimation.ts:25-36 | decoding row·cols + column gives back (row, column) |
| Lactic.TableSizes | src/constants/molecules/lactic.ts:4-37 | 12 atom positions, 11 bonds, 11 bond comments |
| Lactic.BondsWellFormed | src/constants/molecules/lactic.ts:4-16 | every bond names two atoms of the table, smaller first, in strictly increasing lexicographic order, so there are no self-bonds and no duplicates |
| Lactic.BondLabelsAreOneBased | src/constants/molecules/lactic.ts:5-15 | each "Bond a-b" comment is its pair shifted by one |
| Lactic.CoordinatesInsideUnitCube | src/constants/molecules/lactic.ts:24-37 | every coordinate has absolute value below 1 |
| Lactic.WalkFromRoot | src/constants/molecules/lactic.ts:5-15 | for every atom, a walk along bonds from atom 0 to it |
| Lactic.BondGraphSpansAllAtoms | src/constants/molecules/lactic.ts:5-15 | every atom is reachable from atom 0 along bonds; with 11 distinct bonds on 12 atoms the graph is a spanning tree |
| Selection.Insert | src/components/animations/BackgroundParticles.tsx:267-272 | inserting into the sorted copy adds exactly one index: the multiset grows by {x} |
| Selection.InsertSorted | src/components/animations/BackgroundParticles.tsx:267-272 | inserting a new index into a (key, index)-sorted list keeps it sorted |
| Selection.SortByKeySorted | src/components/animations/BackgroundParticles.tsx:267-272 | the sort returns a permutation of its input ordered by key, ties by pool position |
| Selection.SortedIsDistinct | src/components/animations/BackgroundParticles.tsx:267-272 | sorting distinct indices gives distinct indices |
| Selection.PrefixIsClosest | src/components/animations/BackgroundParticles.tsx:302-308 | no entry of a prefix of the sorted list has a larger key than an entry after it |
| Selection.SortIsStable | src/components/animations/BackgroundParticles.tsx:267-272 | entries with equal keys keep their pool order (the stable `Array.prototype.sort` of ECMA-262) |
| Particles.Where | src/components/animations/BackgroundParticles.tsx:259-261 | the filtered copy: exactly the pool positions passing the test, in pool order, as many as `Count` |
| Particles.CountUpdate | src/components/animations/BackgroundParticles.tsx:259-261 | changing one particle changes a filter's length by what that particle contributed |
| Particles.CountAgree | src/components/animations/BackgroundParticles.tsx:259-261 | pools agreeing position by position on two tests have filters of equal length |
| Particles.RankIsIndexOf | src/components/animations/BackgroundParticles.tsx:445-447 | a particle's rank is its `indexOf` in the filtered list |
| Particles.HelixIndexRoundTrip | src/components/animations/BackgroundParticles.tsx:217-219 | (strand, rank) → helix index → (strand, rank) round-trips both ways for the 200 slots |
| Particles.DnaPositionBounds | src/components/animations/BackgroundParticles.tsx:217-228 | a helix slot is within DNA_WIDTH of the anchor column and at height rank·height/100, inside the canvas |
| Particles.RankHeight | src/components/animations/BackgroundParticles.tsx:220-221 | a rank in [0, 99] at spacing h/100 is at height rank·h/100, in [0, h) when h > 0 |
| Particles.InitialParticleFacts | src/components/animations/BackgroundParticles.tsx:181-197 | a fresh particle has id = index, is in neither formation, has strand 0, speed = original speed, lies on the canvas and has size and opacity in range |
| Particles.InitialPool | src/components/animations/BackgroundParticles.tsx:179-199 | one particle per group of random draws |
| Particles.EvictDnaEffect | src/components/animations/BackgroundParticles.tsx:128-136 | every DNA member leaves with strand 0 and its original speed; every other particle is unchanged |
| Particles.EvictMoleculeEffect | src/components/animations/BackgroundParticles.tsx:142-150 | every molecule member leaves with no atom and its original speed; every other particle is unchanged |
| Particles.SidesExclusive | src/components/animations/BackgroundParticles.tsx:104-114 | no x is in both halves, and exactly the midline is in neither |
| Particles.ScaleRange | src/components/animations/BackgroundParticles.tsx:323 | the scale lies in [0.6, 1]; it is 1 iff width ≥ 1200 and height ≥ 800, and 0.6 iff width ≤ 720 or height ≤ 480 |
| Particles.AnchorPlacement | src/components/animations/BackgroundParticles.tsx:328-341 | the breakpoint test is width > 1000; the molecule anchor is on the canvas and not right of the midline; the DNA anchor is right of it |
| Particles.BondOpacityTargetSpec | src/components/animations/BackgroundParticles.tsx:346-360 | the target is in [0, 1]: 0 off the canvas or at x/width ≥ 0.5, 1 at ≤ 0.47, else 1 − (r − 0.47)/0.03 |
| Particles.SmoothingOvershoots | src/components/animations/BackgroundParticles.tsx:362 | b' − t = −0.2·(b − t), so the distance shrinks to a fifth and each step overshoots |
| Particles.ShowMoleculeLeftOfMidline | src/components/animations/BackgroundParticles.tsx:526 | the molecule shows exactly when the mouse is left of the midline |
| Particles.MoleculePoints | src/components/animations/BackgroundParticles.tsx:230-245 | one rotated point per atom |
| Particles.MoleculePointsRigid | src/components/animations/BackgroundParticles.tsx:230-245 | the turn keeps each atom's height and distance from the vertical axis; atom 1 has size 1, the rest 0.8 |
| Particles.MoleculePointsPeriodic | src/components/animations/BackgroundParticles.tsx:230-245 | one full turn later (period·0.0005 = 2π, line 365) every atom point and its screen projection (lines 530-531) are back where they were, when cos and sin repeat after 2π |
| Particles.StepAll | src/components/animations/BackgroundParticles.tsx:443-609 | the frame's step keeps the pool's length |
| Particles.AmbientStepFacts | src/components/animations/BackgroundParticles.tsx:588-600 | after wrapping, 0 ≤ x ≤ width and 0 ≤ y ≤ height; opacity − 0.2 shrinks by 0.9; nothing else changes |
| Particles.DnaStepFacts | src/components/animations/BackgroundParticles.tsx:444-462 | a DNA member closes 15% of its gap to the target; opacity 0.7 or 0.5 by strand; the target is within DNA_WIDTH + 2 of the anchor column |
| Particles.MoleculeSpeedRange | src/components/animations/BackgroundParticles.tsx:571 | for a non-negative distance d the easing rate is in [0.04, 0.2]: 0.04·(1 + 0.05·d) up to d = 75, and the cap 0.2 from d = 80 on |
| Particles.MoleculeStepConverges | src/components/animations/BackgroundParticles.tsx:564-579 | a visible molecule member's gap to its target shrinks by 1 − speed, and its size becomes 1.5 |
| Particles.EaseResidual | src/components/animations/BackgroundParticles.tsx:573-574 | an easing step at rate s leaves the fraction 1 − s of the gap |
| Particles.MoleculeOpacityRange | src/components/animations/BackgroundParticles.tsx:577-578 | with depth in [−1, 1] and a random draw in [0, 1), the opacity is in [0.12, 0.85) |
| Particles.ReturnStepFacts | src/components/animations/BackgroundParticles.tsx:580-587 | the speed gap to the original shrinks to 5% and opacity − 0.2 by 0.9; a particle at its original speed moves by it |
| Particles.StepKeepsMembership | src/components/animations/BackgroundParticles.tsx:443-609 | stepping never changes formation, strand, atom, sub-slot, id or original speed |
| Formation.DnaSlotFacts | src/components/animations/BackgroundParticles.tsx:273-287 | candidate k joins strand 1 while k < needed1, strand 2 while k < needed1 + needed2, otherwise stays; its position, speed, id and molecule fields are kept |
| Formation.Assign | src/components/animations/BackgroundParticles.tsx:273-287 | handling sorted candidates keeps the pool's length |
| Formation.AssignOutside | src/components/animations/BackgroundParticles.tsx:273-287 | a particle not yet handled is untouched |
| Formation.AssignInside | src/components/animations/BackgroundParticles.tsx:273-287 | the k-th handled candidate holds slot k |
| Formation.AssignEffect | src/components/animations/BackgroundParticles.tsx:273-287 | after the loop, candidate k holds slot k and every non-candidate is untouched, so pool order is unchanged |
| Formation.AssignCount | src/components/animations/BackgroundParticles.tsx:273-287 | a filter's length changes by what the handled candidates gained |
| Formation.DnaOrder | src/components/animations/BackgroundParticles.tsx:259-272 | the sorted DNA candidates are distinct pool positions, exactly the non-DNA particles |
| Formation.SortedOrderDistinct | src/components/animations/BackgroundParticles.tsx:267-272 | the sorted filtered copy is a permutation of distinct pool positions |
| Formation.FillDna | src/components/animations/BackgroundParticles.tsx:258-289 | the DNA section keeps the pool's length |
| Formation.DnaGained | src/components/animations/BackgroundParticles.tsx:273-287 | the first i candidates add min(i, needed1) to strand 1 and the next ones up to needed1 + needed2 to strand 2 |
| Formation.FillDnaCounts | src/components/animations/BackgroundParticles.tsx:258-289 | from c1, c2 ≤ 100, strand 1 grows by min(m, 100 − c1) and strand 2 by the next min(m, 200 − c1 − c2) − min(m, 100 − c1) of the m candidates |
| Formation.FillDnaQuotas | src/components/animations/BackgroundParticles.tsx:263-287 | neither strand passes 100, and both reach 100 when there are enough candidates |
| Formation.AssignDnaCounts | src/components/animations/BackgroundParticles.tsx:273-287 | handling all candidates adds the two quotas' worth to the strands |
| Formation.AssignDnaCounted | src/components/animations/BackgroundParticles.tsx:273-287 | handling all candidates with the quotas 100 − c1 and 100 − c2 gives the strand counts the DNA fill promises |
| Formation.FillDnaCountsActive | src/components/animations/BackgroundParticles.tsx:263-287 | with a quota open the fill gives those strand counts |
| Formation.FillDnaCountsIdle | src/components/animations/BackgroundParticles.tsx:263-266 | with both strands full the fill also gives them (it changes nothing) |
| Formation.TakeQuotas | src/components/animations/BackgroundParticles.tsx:263-264 | with c1, c2 ≤ 100 the quotas never push a strand past 100 |
| Formation.FillDnaShape | src/components/animations/BackgroundParticles.tsx:258-289 | each particle is untouched or was free and now sits on strand 1 or 2 with a target, everything else kept |
| Formation.FillDnaTakesClosest | src/components/animations/BackgroundParticles.tsx:267-287 | no recruit is farther from the DNA anchor than a candidate left out |
| Formation.MoleculeOrder | src/components/animations/BackgroundParticles.tsx:293-307 | the sorted molecule candidates are distinct pool positions, exactly the particles in neither formation |
| Formation.FillMolecule | src/components/animations/BackgroundParticles.tsx:292-318 | the molecule section keeps the pool's length |
| Formation.MoleculeGained | src/components/animations/BackgroundParticles.tsx:308-316 | the first i candidates add min(i, needed) members and remove as many candidates |
| Formation.FillMoleculeCounts | src/components/animations/BackgroundParticles.tsx:292-318 | membership grows by min(m, needed); it never exceeds atoms·32; if it stays below, no candidate is left |
| Formation.FillMoleculeShape | src/components/animations/BackgroundParticles.tsx:302-316 | each particle is untouched or was a candidate and now has atom ⌊k/32⌋ and sub-slot k mod 32 for some k < needed |
| Formation.MoleculeSlotInRange | src/components/animations/BackgroundParticles.tsx:310-311 | k < needed ≤ atoms·32 gives atom ⌊k/32⌋ < atoms and sub-slot < 32 |
| Formation.MoleculeSlotsInjective | src/components/animations/BackgroundParticles.tsx:309-316 | different candidates get different (atom, sub-slot) places |
| Formation.FillMoleculeTakesClosest | src/components/animations/BackgroundParticles.tsx:302-308 | no recruit is farther from the molecule anchor than a candidate left out |
| PoolInvariant.NeverInBoth | src/components/animations/BackgroundParticles.tsx:259 | in a valid pool no particle is in both formations; DNA members exist only under the right latch, molecule members only under the left |
| PoolInvariant.InitialPoolValid | src/components/animations/BackgroundParticles.tsx:179-215 | a freshly built pool is valid for any latches not both set |
| PoolInvariant.EvictDnaValid | src/components/animations/BackgroundParticles.tsx:126-138 | evicting the DNA formation gives a valid pool with the right latch cleared |
| PoolInvariant.EvictMoleculeValid | src/components/animations/BackgroundParticles.tsx:140-152 | evicting the molecule gives a valid pool with the left latch cleared |
| PoolInvariant.MouseMoveValid | src/components/animations/BackgroundParticles.tsx:116-155 | re-reading both latches from the same x keeps the pool valid |
| PoolInvariant.MouseLeaveValid | src/components/animations/BackgroundParticles.tsx:157-170 | leaving the window makes a valid pool with both latches cleared |
| PoolInvariant.FillDnaValid | src/components/animations/BackgroundParticles.tsx:258-289 | the DNA fill keeps the pool valid |
| PoolInvariant.FillMoleculeValid | src/components/animations/BackgroundParticles.tsx:292-318 | the molecule fill keeps the pool valid |
| PoolInvariant.FillMoleculeIdle | src/components/animations/BackgroundParticles.tsx:297-300 | a valid pool that already has molecule members is complete or has no candidates, so the fill changes nothing |
| PoolInvariant.FillMoleculeFromEmpty | src/components/animations/BackgroundParticles.tsx:308-316 | filling an empty molecule puts recruit k at (⌊k/32⌋, k mod 32), in range and pairwise distinct |
| PoolInvariant.AssignMoleculeWellFormed | src/components/animations/BackgroundParticles.tsx:309-316 | the molecule loop leaves every particle well formed and its DNA fields as they were |
| PoolInvariant.AssignMoleculeDistinct | src/components/animations/BackgroundParticles.tsx:309-316 | from an empty molecule, the loop gives distinct sphere places |
| PoolInvariant.AssignMoleculeCounts | src/components/animations/BackgroundParticles.tsx:308-316 | from an empty molecule the loop adds min(m, needed) members and removes as many candidates |
| PoolInvariant.AssignMoleculeValid | src/components/animations/BackgroundParticles.tsx:308-316 | from an empty molecule, handing the candidates their places keeps the pool valid |
| PoolInvariant.ValidAtomsInRange | src/components/animations/BackgroundParticles.tsx:523 | every molecule member of a valid pool names an existing atom |
| PoolInvariant.StepAllValid | src/components/animations/BackgroundParticles.tsx:443-609 | stepping every particle keeps the pool valid |
| PoolInvariant.StrandCountsAgree | src/components/animations/BackgroundParticles.tsx:439-441 | in a valid pool the strand lists of the step count the same as the strand filters of the fill |
| PoolInvariant.DnaIndexInRange | src/components/animations/BackgroundParticles.tsx:445-449 | each DNA member's helix index is in [0, 200) and decodes to its own strand |
| PoolInvariant.DnaIndexInjective | src/components/animations/BackgroundParticles.tsx:445-447 | two DNA members never share a helix index |
| Bonds.Accumulated | src/components/animations/BackgroundParticles.tsx:372-382 | an atom's count is the number of pool particles that add to its centre (members with that atom and sub-slot below 8) |
| Bonds.SphereCenters | src/components/animations/BackgroundParticles.tsx:370-390 | the accumulate-then-average loops give, for each atom, the mean of its members with sub-slot (default 0) below 8 |
| Bonds.CountZeroIffNone | src/components/animations/BackgroundParticles.tsx:372-382 | an atom's count is zero exactly when no particle adds to it |
| Bonds.AccumulatedBounds | src/components/animations/BackgroundParticles.tsx:372-382 | an atom's sums lie between count·lo and count·hi for any box holding its central particles |
| Bonds.CentroidInBox | src/components/animations/BackgroundParticles.tsx:384-390 | an atom's centre lies in every box holding its central particles |
| Bonds.AveragedInBox | src/components/animations/BackgroundParticles.tsx:385-390 | averaging sums that are in the box gives a point in the box |
| Bonds.DrawnBonds | src/components/animations/BackgroundParticles.tsx:368-435 | one entry per bond of the table (empty when the bond is skipped) |
| Bonds.BondDrawnIff | src/components/animations/BackgroundParticles.tsx:392-413 | a bond is stroked iff both indices are atoms, both centres have particles, and the centres are apart |
| Bonds.LengthZeroIff | src/components/animations/BackgroundParticles.tsx:407-409 | the bond length is zero exactly when the two centres coincide |
| Bonds.StrokeOnSurfaces | src/components/animations/BackgroundParticles.tsx:407-423 | each stroke end is its sphere's radius from its centre along the unit bond vector |
| Bonds.LacticBondsInRange | src/components/animations/BackgroundParticles.tsx:394 | the range test never skips a bond of the lactic-acid table |
| Engine.Recruit | src/components/animations/BackgroundParticles.tsx:257-318 | the two fills of a frame keep the pool valid and its length, and every member names an atom |
| Engine.Centers | src/components/animations/BackgroundParticles.tsx:370-390 | one centre per atom |
| Engine.BackgroundParticles.constructor | src/components/animations/BackgroundParticles.tsx:93-102 | the refs start empty: mouse (−1000, −1000), anchors at the origin, opacity 0, both latches off, not ready |
| Engine.BackgroundParticles.InitParticles | src/components/animations/BackgroundParticles.tsx:179-199 | a fresh pool of 5000, particle k from draw group k; nothing else changes |
| Engine.BackgroundParticles.UpdateCanvasSize | src/components/animations/BackgroundParticles.tsx:201-215 | adopt the window size, anchors at (0.85·w, h/2) and (0.15·w, 0.4·h), opacity 0, new pool, ready; latches and mouse kept; pool valid |
| Engine.BackgroundParticles.EvictDnaMembers | src/components/animations/BackgroundParticles.tsx:129-136 | the pool becomes its DNA eviction |
| Engine.BackgroundParticles.EvictMoleculeMembers | src/components/animations/BackgroundParticles.tsx:143-150 | the pool becomes its molecule eviction |
| Engine.BackgroundParticles.MouseMove | src/components/animations/BackgroundParticles.tsx:116-155 | nothing before the canvas is ready; then each latch is re-read from x, a flip off evicts its formation, the mouse is stored, and the pool stays valid |
| Engine.BackgroundParticles.MouseLeave | src/components/animations/BackgroundParticles.tsx:157-170 | latches off, mouse (−1000, −1000), opacity 0, every particle ambient, pool valid |
| Engine.BackgroundParticles.ResetAll | src/components/animations/BackgroundParticles.tsx:162-169 | every particle becomes ambient |
| Engine.BackgroundParticles.AssignSlots | src/components/animations/BackgroundParticles.tsx:273-287 | the loop over sorted candidates gives the pool `Assign` describes |
| Engine.BackgroundParticles.FillDnaFormation | src/components/animations/BackgroundParticles.tsx:258-289 | the pool becomes its DNA fill at the frame's time and anchor |
| Engine.BackgroundParticles.FillMoleculeFormation | src/components/animations/BackgroundParticles.tsx:292-318 | the pool becomes its molecule fill around the previous frame's anchor |
| Engine.BackgroundParticles.StepParticles | src/components/animations/BackgroundParticles.tsx:443-609 | the pool becomes its step for the frame |
| Engine.BackgroundParticles.RecruitParticles | src/components/animations/BackgroundParticles.tsx:257-318 | both fills, each under its latch, keep the pool valid |
| Engine.BackgroundParticles.BondSegments | src/components/animations/BackgroundParticles.tsx:367-435 | changes nothing; while the bonds are visible it returns one stroke or skip per bond of the table (`DrawnBonds` of the current centres), and nothing while they are hidden |
| Engine.BackgroundParticles.Ease | src/components/animations/BackgroundParticles.tsx:330-362 | the molecule anchor moves to its place for the canvas size and the bond opacity takes one smoothing step towards its target; no other ref changes |
| Engine.BackgroundParticles.Measure | src/components/animations/BackgroundParticles.tsx:330-435 | the refs are eased as above, the pool is unchanged, and the strokes are those of the pool's centres under the eased opacity and the sphere radius for the canvas size |
| Engine.BackgroundParticles.Advance | src/components/animations/BackgroundParticles.tsx:320-609 | after the fills: the refs are eased, the strokes are measured on the filled pool, and the pool becomes `StepAll` of it for the frame built from the eased refs; the pool stays valid |
| Engine.BackgroundParticles.Animate | src/components/animations/BackgroundParticles.tsx:248-612 | before the canvas is ready a frame changes nothing and strokes nothing; otherwise the pool is first `Recruit`ed under the latches, then advanced as `Advance` states, and stays valid |
| Engine.BackgroundParticles.Tick | src/components/animations/BackgroundParticles.tsx:257-609 | one frame on a ready canvas: the fills, the molecule points of the frame's angle, then `Advance` |
| Engine.FormationsDisjoint | src/components/animations/BackgroundParticles.tsx:259 | in any reachable state no particle is in both formations, and each formation is empty while its latch is off |
| Wireframe.Depth | src/components/animations/archive/portrait/WireframeAnimation.ts:27-35 | the depth of a pixel is in [0, 50] |
| Wireframe.SamplePoint | src/components/animations/archive/portrait/WireframeAnimation.ts:27-36 | a sampled point keeps its pixel's x and y, with depth in [0, 50] |
| Wireframe.RowPoints | src/components/animations/archive/portrait/WireframeAnimation.ts:26-37 | a row holds one point per column visited |
| Wireframe.RowPointsAt | src/components/animations/archive/portrait/WireframeAnimation.ts:26-36 | point c of a row is sampled at x = 10·c < width |
| Wireframe.GridSample | src/components/animations/archive/portrait/WireframeAnimation.ts:25-36 | grid index i is sampled at the pixel (10·column, 10·row) of its grid position, inside the image |
| Wireframe.RowSample | src/components/animations/archive/portrait/WireframeAnimation.ts:25-36 | point c of row r is grid index r·cols + c |
| Wireframe.GridPointsAt | src/components/animations/archive/portrait/WireframeAnimation.ts:25-38 | m rows hold m·cols points, each sampled at its grid cell |
| Wireframe.AppendRowAt | src/components/animations/archive/portrait/WireframeAnimation.ts:25-38 | adding one row keeps every point sampled at its grid cell |
| Wireframe.SamplePoints | src/components/animations/archive/portrait/WireframeAnimation.ts:25-38 | the nested loops give ⌈h/10⌉·⌈w/10⌉ points in row-major order, point i sampled at its grid cell |
| Wireframe.EdgesBelowMembers | src/components/animations/archive/portrait/WireframeAnimation.ts:41-52 | the edges emitted are exactly the pairs (i, i+1) whose row continues and (i, i+C) whose end exists |
| Wireframe.EdgesBelowOrdered | src/components/animations/archive/portrait/WireframeAnimation.ts:41-52 | edges come out by start point, the row edge before the column edge |
| Wireframe.BuildEdges | src/components/animations/archive/portrait/WireframeAnimation.ts:41-52 | the edge loop emits the edge list described above |
| Wireframe.CorrectedEdgesJoinNeighbours | src/components/animations/archive/portrait/WireframeAnimation.ts:41-52 | with C = ⌈w/10⌉, the edges are exactly the pairs of grid neighbours |
| Wireframe.AlignedWidthRowLength | src/components/animations/archive/portrait/WireframeAnimation.ts:44-46 | when the width is a multiple of 10, ⌊w/10⌋ = ⌈w/10⌉ and the code's edges are the neighbour edges |
| Wireframe.RowWrapAtWidth25 | src/components/animations/archive/portrait/WireframeAnimation.ts:44-46 | on a 25×20 image the code links point 2 (end of row 0) to point 3 (start of row 1) |
| Wireframe.BuildMesh | src/components/animations/archive/portrait/WireframeAnimation.ts:18-52 | points and edges as written: the edges are the `IsEdge` pairs with C = ⌊w/10⌋ |
| Wireframe.BuildMeshCorrected | src/components/animations/archive/portrait/WireframeAnimation.ts:18-52 | points and edges with C = ⌈w/10⌉: every edge joins neighbours and every pair of neighbours is joined |
| Wireframe.RotateY | src/components/animations/archive/portrait/WireframeAnimation.ts:55-63 | y is unchanged |
| Wireframe.RotateX | src/components/animations/archive/portrait/WireframeAnimation.ts:65-73 | x is unchanged |
| Wireframe.RotateYKeepsRadius | src/components/animations/archive/portrait/WireframeAnimation.ts:55-63 | x² + z² is kept |
| Wireframe.RotateXKeepsRadius | src/components/animations/archive/portrait/WireframeAnimation.ts:65-73 | y² + z² is kept |
| Wireframe.TurnKeepsDistance | src/components/animations/archive/portrait/WireframeAnimation.ts:76-81 | the tilt-then-spin keeps every point's distance from the origin |
| Wireframe.Project | src/components/animations/archive/portrait/WireframeAnimation.ts:83-96 | a point has an image iff z ≠ −400; the image satisfies the perspective relation about the canvas centre |
| Wireframe.EdgeOpacity | src/components/animations/archive/portrait/WireframeAnimation.ts:99-100 | the opacity is clamped to [0.1, 1] |
| Wireframe.EdgeOpacityByDepth | src/components/animations/archive/portrait/WireframeAnimation.ts:99-100 | deeper edges are never brighter; between the clamps the opacity is 1 − (z1 + z2)/800 |
| Wireframe.EdgeStroke | src/components/animations/archive/portrait/WireframeAnimation.ts:78-100 | an edge is stroked iff neither turned end lies on the camera plane; its ends are the projections of the turned ends and its opacity is in [0.1, 1], equal to 1 − (z1 + z2)/800 between the clamps |
| Geometric.MinOf | src/components/animations/archive/portrait/GeometricAnimation.ts:57-59 | the minimum is an element and below all elements |
| Geometric.MaxOf | src/components/animations/archive/portrait/GeometricAnimation.ts:58-60 | the maximum is an element and above all elements |
| Geometric.StepsCount | src/components/animations/archive/portrait/GeometricAnimation.ts:62-63 | the loop `v = lo; v <= hi; v++` visits lo + k exactly when lo + k ≤ hi |
| Geometric.SampleIndexInRange | src/components/animations/archive/portrait/GeometricAnimation.ts:64-69 | every read of an in-canvas sample is inside [0, 4·w·h) |
| Geometric.SampleRow | src/components/animations/archive/portrait/GeometricAnimation.ts:63-71 | the inner loop adds one row of samples to the running sums, as `RowSums` states |
| Geometric.RowSumsFacts | src/components/animations/archive/portrait/GeometricAnimation.ts:63-71 | a row adds to the count iff one of its samples is in the canvas, and keeps the channel sums ≤ 255·count |
| Geometric.BoxSumsFacts | src/components/animations/archive/portrait/GeometricAnimation.ts:62-72 | over the box, the count is zero iff no sample is in the canvas, and the sums stay ≤ 255·count |
| Geometric.FlooredMeanInRange | src/components/animations/archive/portrait/GeometricAnimation.ts:76-78 | ⌊sum/count⌋ of byte sums is a byte |
| Geometric.AverageColorSpec | src/components/animations/archive/portrait/GeometricAnimation.ts:55-80 | transparent exactly when no sample of the bounding box is in the canvas; otherwise every channel is in [0, 255] |
| Geometric.GetAverageColor | src/components/animations/archive/portrait/GeometricAnimation.ts:55-81 | the loops return the floored mean colour over the clipped bounding box, or transparent |
| Geometric.CellTriangleShape | src/components/animations/archive/portrait/GeometricAnimation.ts:25-35 | vertices (x+j, y+j), (x+12+j, y+j), (x+6+j, y+12+j) with one shared jitter, abs(j) ≤ 2, coloured by the average colour |
| Geometric.MeshRow | src/components/animations/archive/portrait/GeometricAnimation.ts:24-36 | k triangles for the first k cells of a row |
| Geometric.MeshRowAt | src/components/animations/archive/portrait/GeometricAnimation.ts:24-36 | triangle c of a row is the cell at x = 12·c |
| Geometric.MeshAt | src/components/animations/archive/portrait/GeometricAnimation.ts:23-37 | m rows hold m·⌈w/12⌉ triangles, triangle i drawn for its grid cell in row-major order |
| Geometric.AppendMeshRow | src/components/animations/archive/portrait/GeometricAnimation.ts:23-37 | adding one row keeps every triangle at its grid cell |
| Geometric.MeshStep | src/components/animations/archive/portrait/GeometricAnimation.ts:23-37 | one more pass of the outer loop appends exactly that row's triangles |
| Geometric.Triangulate | src/components/animations/archive/portrait/GeometricAnimation.ts:22-37 | the nested loops build the mesh of ⌈h/12⌉ rows, one triangle per cell |
| Geometric.TriangulateRow | src/components/animations/archive/portrait/GeometricAnimation.ts:24-36 | the inner loop builds one row of ⌈w/12⌉ triangles |

## Left out

- Canvas drawing is not modelled: `ctx` paths, fills, strokes, gradients, colour strings, dark mode and the framer-motion wrapper. The engine returns what the bond loop would stroke (`BondSegments`). The portraits return points, edges and triangles.
- The DNA connection lines and base-pair gradients (BackgroundParticles.tsx lines 469-521) are drawing only and are not modelled.
- React plumbing is not modelled: `useEffect`, `canvasReady` as React state, `requestAnimationFrame`, listener registration and `getBoundingClientRect`. The class field `ready` stands for `canvasReady`. Mouse coordinates arrive already relative to the canvas, so the rectangle offsets are not modelled.
- `Math.random` and `Date.now` are parameters: a `Draws` record per particle, a flicker value per particle, and `time`.
- `Math.sin`, `Math.cos`, `Math.sqrt`, `Math.PI` and the golden-spiral sphere point with its wobble and renormalisation (lines 529-560) are fields of `HostMath.Host`. Lemmas assume only what they state: |sin|, |cos| ≤ 1; `sqrt` a non-negative square root that is positive on positive arguments; cos² + sin² = 1 at the angle used.
- JS numbers are exact `real`s. Floating-point rounding, NaN and Infinity are not modelled. Two exceptions are modelled explicitly:
  - A zero-length bond (lines 409-413) would divide by zero and stroke NaN. The model strokes nothing (`None`).
  - A point on the camera plane of the wireframe projection has no image (`Project` returns `None`).
- The molecule is a parameter: the class takes the atom table and bond list it is given. The random pick of `moleculeSelector.ts` and the catalogue `index.ts` are not part of this model. Only lactic acid is modelled as a table.
- The atom comments `// 0` … `// 11` in lactic.ts just number the list. No lemma states them.
- `Wireframe.RowContinues`: when fewer than 10 columns exist (⌊w/10⌋ = 0), the code's `i % 0` is NaN. The test then always passes. The model treats `cols = 0` as "the row continues", which gives the same edges.
- The wireframe and geometric colour strings are not modelled. This covers the stroke opacity `opacity * 0.5` and the `rgb(...)` text. `Geometric.Color` carries the numbers.
- The wireframe keeps edges as point indices. The source keeps references to the point objects. Both name the same points.
- `Geometric.Triangulate`: the triangle-by-cell statement (`MeshAt`) is a separate lemma about the mesh function and is not repeated in the method's postcondition.
- The molecule sub-slot is `i` of the current fill (line 311), not `i` plus the members already present. Two members still never share a place: `PoolInvariant.FillMoleculeIdle` shows that a fill which stops short leaves no candidates, so every later fill finds the molecule complete.
- `updateCanvasSize` (lines 201-215) does not clear the latches, and the model keeps them. `InitialPoolValid` shows that the fresh pool is valid for any latches that are not both set.

## Findings

| source | as written | input that shows it | evidently intended | confidence | as-written member | corrected member |
|---|---|---|---|---|---|---|
| src/components/animations/archive/portrait/WireframeAnimation.ts:44-46 | The edge loop takes ⌊width/10⌋ points to a row. The sampling loop lays ⌈width/10⌉ points on each row. | A 25×20 image gives 3 points a row, but C = 2. The edge (2, 3) joins the last point of row 0 to the first point of row 1, and the column edges skip a row's worth. | Row length ⌈width/10⌉: edges join exactly the grid neighbours. | not executed | Wireframe.RowWrapAtWidth25 | Wireframe.CorrectedEdgesJoinNeighbours |
