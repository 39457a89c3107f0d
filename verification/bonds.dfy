/** Drawing the molecule's bonds (BackgroundParticles.tsx lines 364-436): the centre of
    each atom's sphere is the mean position of its central particles, and a bond is
    stroked between the two sphere surfaces unless an index is out of range or a
    sphere has no central particle. */
module Bonds {
  import opened HostMath
  import opened Particles
  import Lactic

  /** `{ x, y, count }` of one atom. */
  datatype Center = Center(x: real, y: real, count: nat)

  /** `particle.sphereIndex || 0` (line 375). */
  function SphereIndexOrZero(p: Particle): int {
    if p.sphereIndex.Some? then p.sphereIndex.value else 0
  }

  /** Particle `p` counts towards the centre of atom `k` (lines 373-376). */
  predicate Contributes(p: Particle, k: int) {
    p.inMolecule && p.moleculePoint == Some(k) && SphereIndexOrZero(p) < SphereCenterParticles
  }

  /** Sums and count of the particles of `s` that count towards atom `k`. */
  function Accumulated(s: seq<Particle>, k: int): (c: Center)
    ensures c.count == Count(s, p => Contributes(p, k)) && c.count <= |s|
  {
    if s == [] then Center(0.0, 0.0, 0)
    else
      var c := Accumulated(s[..|s| - 1], k);
      var p := s[|s| - 1];
      if Contributes(p, k) then Center(c.x + p.x, c.y + p.y, c.count + 1) else c
  }

  /** The centre after the averaging pass (lines 385-390). */
  function Averaged(c: Center): Center {
    if c.count > 0 then Center(c.x / c.count as real, c.y / c.count as real, c.count) else c
  }

  function CenterOf(s: seq<Particle>, k: int): Center {
    Averaged(Accumulated(s, k))
  }

  /** Lines 370-390 as a loop over the pool: accumulate, then average. */
  method SphereCenters(particles: array<Particle>, atoms: nat) returns (centers: seq<Center>)
    requires forall j :: 0 <= j < particles.Length ==> AtomInRange(particles[j], atoms)
    ensures |centers| == atoms
    ensures forall k :: 0 <= k < atoms ==> centers[k] == CenterOf(particles[..], k)
  {
    var acc := new Center[atoms](_ => Center(0.0, 0.0, 0));
    var i := 0;
    while i < particles.Length
      invariant 0 <= i <= particles.Length
      invariant forall k :: 0 <= k < atoms ==> acc[k] == Accumulated(particles[..i], k)
    {
      var p := particles[i];
      assert particles[..i + 1][..i] == particles[..i];
      if p.inMolecule && p.moleculePoint.Some? {
        var sphereIndex := SphereIndexOrZero(p);
        if sphereIndex < SphereCenterParticles {
          var k := p.moleculePoint.value;
          acc[k] := Center(acc[k].x + p.x, acc[k].y + p.y, acc[k].count + 1);
        }
      }
      i := i + 1;
    }
    assert particles[..i] == particles[..];
    var k := 0;
    while k < atoms
      invariant 0 <= k <= atoms
      invariant forall a :: 0 <= a < k ==> acc[a] == CenterOf(particles[..], a)
      invariant forall a :: k <= a < atoms ==> acc[a] == Accumulated(particles[..], a)
    {
      if acc[k].count > 0 {
        acc[k] := Center(acc[k].x / acc[k].count as real, acc[k].y / acc[k].count as real, acc[k].count);
      }
      k := k + 1;
    }
    centers := acc[..];
  }

  /** An atom has a centre exactly when some particle counts towards it. */
  lemma {:induction false} CountZeroIffNone(s: seq<Particle>, k: int)
    ensures Accumulated(s, k).count == 0 <==> forall j :: 0 <= j < |s| ==> !Contributes(s[j], k)
  {
    if s != [] {
      CountZeroIffNone(s[..|s| - 1], k);
      assert forall j :: 0 <= j < |s| - 1 ==> s[..|s| - 1][j] == s[j];
    }
  }

  /** `p` lies in the box with corners `lo` and `hi`. */
  predicate InBox(p: Particle, lo: Pos, hi: Pos) {
    lo.x <= p.x <= hi.x && lo.y <= p.y <= hi.y
  }

  /** The sums of `c` lie between count * lo and count * hi. */
  predicate SumsInBox(c: Center, lo: Pos, hi: Pos) {
    c.count as real * lo.x <= c.x <= c.count as real * hi.x &&
    c.count as real * lo.y <= c.y <= c.count as real * hi.y
  }

  lemma StepBounds(n: real, sum: real, v: real, lo: real, hi: real)
    requires n * lo <= sum <= n * hi && lo <= v <= hi
    ensures (n + 1.0) * lo <= sum + v <= (n + 1.0) * hi
  {
    assert (n + 1.0) * lo == n * lo + lo;
    assert (n + 1.0) * hi == n * hi + hi;
  }

  lemma AddToSums(c: Center, p: Particle, lo: Pos, hi: Pos)
    requires SumsInBox(c, lo, hi) && InBox(p, lo, hi)
    ensures SumsInBox(Center(c.x + p.x, c.y + p.y, c.count + 1), lo, hi)
  {
    assert (c.count + 1) as real == c.count as real + 1.0;
    StepBounds(c.count as real, c.x, p.x, lo.x, hi.x);
    StepBounds(c.count as real, c.y, p.y, lo.y, hi.y);
  }

  /** The sums of an atom's central particles lie between count * lo and count * hi. */
  lemma {:induction false} AccumulatedBounds(s: seq<Particle>, k: int, lo: Pos, hi: Pos)
    requires forall j :: 0 <= j < |s| && Contributes(s[j], k) ==> InBox(s[j], lo, hi)
    ensures SumsInBox(Accumulated(s, k), lo, hi)
  {
    if s == [] {
      assert Accumulated(s, k) == Center(0.0, 0.0, 0);
    } else {
      var t := s[..|s| - 1];
      assert forall j :: 0 <= j < |t| ==> t[j] == s[j];
      AccumulatedBounds(t, k, lo, hi);
      if Contributes(s[|s| - 1], k) {
        AddToSums(Accumulated(t, k), s[|s| - 1], lo, hi);
      }
    }
  }

  /** The centre of an atom lies in any box holding all its central particles. */
  lemma CentroidInBox(s: seq<Particle>, k: int, lo: Pos, hi: Pos)
    requires forall j :: 0 <= j < |s| && Contributes(s[j], k) ==> InBox(s[j], lo, hi)
    requires Accumulated(s, k).count > 0
    ensures lo.x <= CenterOf(s, k).x <= hi.x && lo.y <= CenterOf(s, k).y <= hi.y
  {
    AccumulatedBounds(s, k, lo, hi);
    AveragedInBox(Accumulated(s, k), lo, hi);
  }

  lemma AveragedInBox(c: Center, lo: Pos, hi: Pos)
    requires SumsInBox(c, lo, hi) && c.count > 0
    ensures lo.x <= Averaged(c).x <= hi.x && lo.y <= Averaged(c).y <= hi.y
  {
    DivideBounds(c.x, c.count as real, lo.x, hi.x);
    DivideBounds(c.y, c.count as real, lo.y, hi.y);
  }

  // ---------------------------------------------------------------------------
  // The bond loop (lines 392-435)

  /** Both indices are atoms of the molecule (line 394). */
  predicate BondInRange(b: Lactic.Bond, atoms: nat) {
    0 <= b.0 < atoms && 0 <= b.1 < atoms
  }

  datatype Segment = Segment(startX: real, startY: real, endX: real, endY: real)

  /** The stroke for a bond between two non-empty centres; the source divides by the
      bond length unguarded, so two coinciding centres give NaN coordinates, which the
      canvas ignores: nothing is drawn (`None`). */
  function BondStroke(c1: Center, c2: Center, radius1: real, radius2: real, host: Host): Option<Segment> {
    var dx := c2.x - c1.x;
    var dy := c2.y - c1.y;
    var bondLength := host.sqrt(dx * dx + dy * dy);
    if bondLength == 0.0 then None
    else
      var ux, uy := dx / bondLength, dy / bondLength;
      Some(Segment(c1.x + ux * radius1, c1.y + uy * radius1, c2.x - ux * radius2, c2.y - uy * radius2))
  }

  /** What the bond loop strokes for bond `b`: nothing when it is skipped. */
  function BondDrawn(b: Lactic.Bond, centers: seq<Center>, points: seq<AtomPoint>, sphereRadius: real, host: Host): Option<Segment>
    requires |points| == |centers|
  {
    if !BondInRange(b, |centers|) then None
    else if centers[b.0].count == 0 || centers[b.1].count == 0 then None
    else BondStroke(centers[b.0], centers[b.1], sphereRadius * points[b.0].size, sphereRadius * points[b.1].size, host)
  }

  /** The loop of lines 392-435: one entry per bond of the table, `None` for a bond it
      skips. */
  function DrawnBonds(bonds: seq<Lactic.Bond>, centers: seq<Center>, points: seq<AtomPoint>,
                      sphereRadius: real, host: Host): (r: seq<Option<Segment>>)
    requires |points| == |centers|
    ensures |r| == |bonds|
  {
    seq(|bonds|, i requires 0 <= i < |bonds| => BondDrawn(bonds[i], centers, points, sphereRadius, host))
  }

  /** `drawn` is what the bond section strokes in one frame (lines 367-435): the
      entries of `DrawnBonds` while the bonds are visible, nothing otherwise. */
  predicate Strokes(drawn: seq<Option<Segment>>, visible: bool, bonds: seq<Lactic.Bond>, centers: seq<Center>,
                    points: seq<AtomPoint>, sphereRadius: real, host: Host)
    requires |points| == |centers|
  {
    drawn == if visible then DrawnBonds(bonds, centers, points, sphereRadius, host) else []
  }

  /** `bondOpacityRef.current > 0.01 && mouseRef.current.x > 0` (line 368). */
  predicate BondsVisible(bondOpacity: real, mouseX: real) {
    bondOpacity > 0.01 && mouseX > 0.0
  }

  /** A bond is stroked exactly when both indices are atoms, both centres have at least
      one central particle, and the centres are apart (given a true square root).  So
      every division by a count or a length happens on a non-zero value. */
  lemma BondDrawnIff(b: Lactic.Bond, centers: seq<Center>, points: seq<AtomPoint>, sphereRadius: real, host: Host)
    requires |points| == |centers| && IsSqrt(host)
    ensures BondDrawn(b, centers, points, sphereRadius, host).Some? <==>
      BondInRange(b, |centers|) && centers[b.0].count > 0 && centers[b.1].count > 0 &&
      (centers[b.0].x, centers[b.0].y) != (centers[b.1].x, centers[b.1].y)
  {
    if BondInRange(b, |centers|) {
      LengthZeroIff(host, centers[b.1].x - centers[b.0].x, centers[b.1].y - centers[b.0].y);
    }
  }

  /** The bond length is zero exactly when the two centres coincide. */
  lemma LengthZeroIff(host: Host, dx: real, dy: real)
    requires IsSqrt(host)
    ensures host.sqrt(dx * dx + dy * dy) == 0.0 <==> dx == 0.0 && dy == 0.0
  {
    SumSquaresPos(dx, dy);
    if dx != 0.0 || dy != 0.0 {
      assert dx * dx + dy * dy > 0.0;
      assert host.sqrt(dx * dx + dy * dy) > 0.0;
    } else {
      assert dx * dx + dy * dy == 0.0;
      SqrtOfZero(host);
    }
  }

  /** The length of the bond between two centres. */
  function BondLength(c1: Center, c2: Center, host: Host): real {
    host.sqrt((c2.x - c1.x) * (c2.x - c1.x) + (c2.y - c1.y) * (c2.y - c1.y))
  }

  /** A stroke starts on the first sphere's surface and ends on the second's: each end
      is its radius away from its centre along the unit vector from the first centre to
      the second. */
  lemma StrokeOnSurfaces(c1: Center, c2: Center, radius1: real, radius2: real, host: Host)
    requires IsSqrt(host) && BondLength(c1, c2, host) != 0.0
    ensures BondStroke(c1, c2, radius1, radius2, host).Some?
    ensures var seg := BondStroke(c1, c2, radius1, radius2, host).value;
      var len := BondLength(c1, c2, host);
      var ux, uy := (c2.x - c1.x) / len, (c2.y - c1.y) / len;
      ux * ux + uy * uy == 1.0 &&
      seg.startX - c1.x == ux * radius1 && seg.startY - c1.y == uy * radius1 &&
      c2.x - seg.endX == ux * radius2 && c2.y - seg.endY == uy * radius2
  {
    var dx, dy := c2.x - c1.x, c2.y - c1.y;
    SumSquaresPos(dx, dy);
    var len := BondLength(c1, c2, host);
    assert len * len == dx * dx + dy * dy;
    UnitVector(dx, dy, len);
  }

  /** No bond of the lactic acid table is skipped by the range test. */
  lemma LacticBondsInRange()
    ensures forall i :: 0 <= i < |Lactic.MoleculeBonds| ==> BondInRange(Lactic.MoleculeBonds[i], |Lactic.AtomPositions|)
  {
    Lactic.BondsWellFormed();
  }
}
