/** The particle record of BackgroundParticles.tsx and everything the engine computes
    from one particle, or from the pool as a value: counting and filtering, leaving a
    formation, the helix slot of a rank, the responsive layout and the per-frame step. */
module Particles {
  import opened HostMath
  import Lactic

  const NumParticles: nat := 5000
  const ParticlesPerStrand: int := 100
  const ParticlesPerSphere: int := 32
  const SphereCenterParticles: int := 8
  const DnaWidth: real := 35.0
  const HelixRotationSpeed: real := 0.0012
  const OscillationSpeed: real := 0.002
  const OscillationAmount: real := 2.0
  const FlockingSpeed: real := 0.15
  const BaseMoleculeRadius: real := 200.0
  const BaseSphereRadius: real := 15.0
  const MoleculeRotationSpeed: real := 0.0005
  const MoleculeFadeSpeed: real := 1.2
  const FadeStartRatio: real := 0.47
  const CenterLine: real := 0.5
  const MinScale: real := 0.6
  const MobileBreakpoint: nat := 768
  const CenteredYOffset: real := 0.2
  const MoleculeFlockingSpeed: real := 0.04
  const MoleculeCenterX: real := 0.15
  const MoleculeCenterY: real := 0.4
  const BackgroundParticleSpeed: real := 0.13
  const BackgroundReturnSpeed: real := 0.05

  datatype Option<T> = None | Some(value: T)

  datatype Particle = Particle(
    x: real, y: real, size: real,
    speedX: real, speedY: real,
    originalSpeedX: real, originalSpeedY: real,
    opacity: real,
    inDNA: bool, inMolecule: bool,
    strand: int,
    moleculePoint: Option<int>,
    sphereIndex: Option<int>,
    targetX: Option<real>, targetY: Option<real>,
    id: int)

  datatype Pos = Pos(x: real, y: real)

  // ---------------------------------------------------------------------------
  // Membership tests used by the filters of `animate`

  predicate OnStrand1(p: Particle) { p.strand == 1 }
  predicate OnStrand2(p: Particle) { p.strand == 2 }
  predicate InMolecule(p: Particle) { p.inMolecule }
  predicate InDna(p: Particle) { p.inDNA }
  /** DNA candidates: `!p.inDNA` (line 259; molecule members are not excluded). */
  predicate DnaCandidate(p: Particle) { !p.inDNA }
  /** Molecule candidates: `!p.inMolecule && !p.inDNA` (line 293). */
  predicate MoleculeCandidate(p: Particle) { !p.inMolecule && !p.inDNA }
  /** The members of `strand1Particles` and `strand2Particles` (lines 439-441). */
  predicate Strand1Member(p: Particle) { p.inDNA && p.strand == 1 }
  predicate Strand2Member(p: Particle) { p.inDNA && p.strand == 2 }

  /** `s.filter(P).length`. */
  function Count(s: seq<Particle>, P: Particle -> bool): (n: nat)
    ensures n <= |s|
  {
    if s == [] then 0 else Count(s[..|s| - 1], P) + (if P(s[|s| - 1]) then 1 else 0)
  }

  /** The pool indices of `s.filter(P)`, in pool order. */
  function Where(s: seq<Particle>, P: Particle -> bool): (r: seq<nat>)
    ensures |r| == Count(s, P)
    ensures forall i :: 0 <= i < |r| ==> r[i] < |s| && P(s[r[i]])
    ensures forall i, j :: 0 <= i < j < |r| ==> r[i] < r[j]
    ensures forall j :: 0 <= j < |s| && P(s[j]) ==> j in r
  {
    if s == [] then []
    else
      var t := Where(s[..|s| - 1], P);
      assert forall j :: 0 <= j < |s| - 1 ==> s[..|s| - 1][j] == s[j];
      if P(s[|s| - 1]) then t + [|s| - 1] else t
  }

  lemma {:induction false} CountUpdate(s: seq<Particle>, j: nat, v: Particle, P: Particle -> bool)
    requires j < |s|
    ensures Count(s[j := v], P) == Count(s, P) - (if P(s[j]) then 1 else 0) + (if P(v) then 1 else 0)
  {
    var n := |s|;
    if j < n - 1 {
      assert s[j := v][..n - 1] == s[..n - 1][j := v];
      CountUpdate(s[..n - 1], j, v, P);
    } else {
      assert s[j := v][..n - 1] == s[..n - 1];
    }
  }

  lemma {:induction false} CountNone(s: seq<Particle>, P: Particle -> bool)
    requires forall j :: 0 <= j < |s| ==> !P(s[j])
    ensures Count(s, P) == 0
  {
    if s != [] {
      CountNone(s[..|s| - 1], P);
    }
  }

  /** Two pools of one length whose entries agree, position by position, on two tests
      count the same. */
  lemma {:induction false} CountAgree(a: seq<Particle>, b: seq<Particle>, P: Particle -> bool, Q: Particle -> bool)
    requires |a| == |b|
    requires forall j :: 0 <= j < |a| ==> (P(a[j]) <==> Q(b[j]))
    ensures Count(a, P) == Count(b, Q)
  {
    if a != [] {
      CountAgree(a[..|a| - 1], b[..|b| - 1], P, Q);
    }
  }

  /** A test with a member in `s` counts at least one. */
  lemma {:induction false} CountSome(s: seq<Particle>, j: nat, P: Particle -> bool)
    requires j < |s| && P(s[j])
    ensures Count(s, P) > 0
  {
    CountBefore(s, j, P);
  }

  /** A member at position `j` has fewer than `Count(s, P)` members before it. */
  lemma {:induction false} CountBefore(s: seq<Particle>, j: nat, P: Particle -> bool)
    requires j < |s| && P(s[j])
    ensures Count(s[..j], P) < Count(s, P)
  {
    var n := |s|;
    if j < n - 1 {
      assert s[..n - 1][..j] == s[..j];
      CountBefore(s[..n - 1], j, P);
    } else {
      assert s[..n - 1] == s[..j];
    }
  }

  // ---------------------------------------------------------------------------
  // Rank of a DNA particle within its strand (lines 445-447)

  /** `list.indexOf(particle)` where `list` is `s.filter(P)`: the number of members
      before `j`, or -1 when `s[j]` is not a member. */
  function RankIn(s: seq<Particle>, j: nat, P: Particle -> bool): int
    requires j < |s|
  {
    if P(s[j]) then Count(s[..j], P) else -1
  }

  lemma {:induction false} WherePrefix(s: seq<Particle>, m: nat, P: Particle -> bool)
    requires m <= |s|
    ensures Where(s[..m], P) <= Where(s, P)
    decreases |s|
  {
    if m < |s| {
      var n := |s|;
      assert s[..n - 1][..m] == s[..m];
      WherePrefix(s[..n - 1], m, P);
    } else {
      assert s[..m] == s;
    }
  }

  /** `RankIn` is the position of the particle in the filtered list. */
  lemma RankIsIndexOf(s: seq<Particle>, j: nat, P: Particle -> bool)
    requires j < |s| && P(s[j])
    ensures 0 <= RankIn(s, j, P) < |Where(s, P)| && Where(s, P)[RankIn(s, j, P)] == j
  {
    WherePrefix(s, j + 1, P);
    assert s[..j + 1][..j] == s[..j];
    assert Where(s[..j + 1], P) == Where(s[..j], P) + [j];
  }

  /** The helix index of pool entry `j` (lines 445-447). */
  function DnaIndex(s: seq<Particle>, j: nat): int
    requires j < |s|
  {
    if s[j].strand == 1 then RankIn(s, j, Strand1Member)
    else ParticlesPerStrand + RankIn(s, j, Strand2Member)
  }

  // ---------------------------------------------------------------------------
  // getDNAPosition (lines 217-228)

  /** `index >= PARTICLES_PER_STRAND ? 2 : 1`. */
  function StrandOfIndex(index: int): int {
    if index >= ParticlesPerStrand then 2 else 1
  }

  /** The rank within the strand that `index` encodes. */
  function StrandIndex(index: int): int {
    if StrandOfIndex(index) == 2 then index - ParticlesPerStrand else index
  }

  /** The index the fill and the step hand to getDNAPosition for rank `rank` of
      strand `strand` (lines 277, 283, 445-447). */
  function HelixIndex(strand: int, rank: int): int {
    if strand == 1 then rank else ParticlesPerStrand + rank
  }

  /** Encoding a (strand, rank) slot and decoding it agree, in both directions. */
  lemma HelixIndexRoundTrip(strand: int, rank: int, index: int)
    ensures (strand == 1 || strand == 2) && 0 <= rank < ParticlesPerStrand ==>
      StrandOfIndex(HelixIndex(strand, rank)) == strand && StrandIndex(HelixIndex(strand, rank)) == rank
    ensures 0 <= index < 2 * ParticlesPerStrand ==>
      HelixIndex(StrandOfIndex(index), StrandIndex(index)) == index && 0 <= StrandIndex(index) < ParticlesPerStrand
  {
  }

  function HelixPhase(index: int, time: real, host: Host): real {
    time * HelixRotationSpeed + StrandIndex(index) as real * 0.2 +
      (if StrandOfIndex(index) == 2 then host.pi else 0.0)
  }

  function DnaPosition(index: int, time: real, dnaX: real, height: nat, host: Host): Pos {
    var verticalSpacing := height as real / ParticlesPerStrand as real;
    Pos(dnaX + host.sin(HelixPhase(index, time, host)) * DnaWidth,
        StrandIndex(index) as real * verticalSpacing)
  }

  /** A helix slot lies within DNA_WIDTH of the anchor column, and its height is its
      rank times height/100, inside the canvas. */
  lemma DnaPositionBounds(index: int, time: real, dnaX: real, height: nat, host: Host)
    requires 0 <= index < 2 * ParticlesPerStrand
    requires -1.0 <= host.sin(HelixPhase(index, time, host)) <= 1.0
    ensures var pos := DnaPosition(index, time, dnaX, height, host);
      Abs(pos.x - dnaX) <= DnaWidth &&
      pos.y == StrandIndex(index) as real * height as real / 100.0 &&
      0.0 <= pos.y && (height > 0 ==> pos.y < height as real)
  {
    var pos := DnaPosition(index, time, dnaX, height, host);
    var r := StrandIndex(index) as real;
    var sv := host.sin(HelixPhase(index, time, host));
    assert pos.x - dnaX == sv * DnaWidth;
    assert -DnaWidth <= sv * DnaWidth <= DnaWidth;
    assert pos.y == r * (height as real / 100.0);
    RankHeight(r, height as real);
    assert height > 0 ==> height as real > 0.0;
  }

  /** Rank r in [0, 99] at spacing h/100 lies in [0, h), and strictly below h when h > 0. */
  lemma RankHeight(r: real, h: real)
    requires 0.0 <= r <= 99.0 && 0.0 <= h
    ensures r * (h / 100.0) == r * h / 100.0
    ensures 0.0 <= r * (h / 100.0) && (h > 0.0 ==> r * (h / 100.0) < h)
  {
    var q := h / 100.0;
    assert 0.0 <= q;
    assert r * q <= 99.0 * q;
  }

  // ---------------------------------------------------------------------------
  // initParticles (lines 179-199)

  /** The six Math.random() draws made for one particle, in call order. */
  datatype Draws = Draws(speedX: real, speedY: real, x: real, y: real, size: real, opacity: real)

  predicate InUnitInterval(r: real) { 0.0 <= r < 1.0 }

  predicate IsRandomDraw(d: Draws) {
    InUnitInterval(d.speedX) && InUnitInterval(d.speedY) && InUnitInterval(d.x) &&
    InUnitInterval(d.y) && InUnitInterval(d.size) && InUnitInterval(d.opacity)
  }

  function InitialParticle(i: int, d: Draws, width: nat, height: nat): Particle {
    var speedX := (d.speedX - 0.5) * BackgroundParticleSpeed;
    var speedY := (d.speedY - 0.5) * BackgroundParticleSpeed;
    Particle(
      x := d.x * width as real, y := d.y * height as real,
      size := d.size * 1.5 + 0.5,
      speedX := speedX, speedY := speedY,
      originalSpeedX := speedX, originalSpeedY := speedY,
      opacity := d.opacity * 0.3 + 0.1,
      inDNA := false, inMolecule := false, strand := 0,
      moleculePoint := None, sphereIndex := None,
      targetX := None, targetY := None,
      id := i)
  }

  /** A fresh particle is ambient, carries its pool index as id, drifts at its original
      speed, and lies on the canvas. */
  lemma InitialParticleFacts(i: int, d: Draws, width: nat, height: nat)
    requires IsRandomDraw(d)
    ensures var p := InitialParticle(i, d, width, height);
      p.id == i && !p.inDNA && !p.inMolecule && p.strand == 0 &&
      p.moleculePoint == None && p.sphereIndex == None &&
      p.speedX == p.originalSpeedX && p.speedY == p.originalSpeedY &&
      -0.065 <= p.speedX < 0.065 && -0.065 <= p.speedY < 0.065 &&
      0.0 <= p.x && (width > 0 ==> p.x < width as real) && p.x <= width as real &&
      0.0 <= p.y && (height > 0 ==> p.y < height as real) && p.y <= height as real &&
      0.5 <= p.size < 2.0 && 0.1 <= p.opacity < 0.4
  {
    var w, h := width as real, height as real;
    var p := InitialParticle(i, d, width, height);
    assert p.x == d.x * w && p.y == d.y * h;
    UnitScaledBelow(d.x, w);
    UnitScaledBelow(d.y, h);
    assert width > 0 ==> w > 0.0;
    assert width > 0 ==> d.x * w < w;
    assert width > 0 ==> p.x < w;
    assert height > 0 ==> h > 0.0;
    assert height > 0 ==> d.y * h < h;
    assert height > 0 ==> p.y < h;
  }

  lemma UnitScaledBelow(r: real, w: real)
    requires InUnitInterval(r) && 0.0 <= w
    ensures 0.0 <= r * w <= w && (0.0 < w ==> r * w < w)
  {
    assert w - r * w == (1.0 - r) * w;
  }

  function InitialPool(draws: seq<Draws>, width: nat, height: nat): (s: seq<Particle>)
    ensures |s| == |draws|
  {
    seq(|draws|, i requires 0 <= i < |draws| => InitialParticle(i, draws[i], width, height))
  }

  // ---------------------------------------------------------------------------
  // Leaving a formation (lines 129-136, 143-150, 162-169)

  function LeaveDna(p: Particle): Particle {
    if p.inDNA then p.(inDNA := false, strand := 0, speedX := p.originalSpeedX, speedY := p.originalSpeedY)
    else p
  }

  function LeaveMolecule(p: Particle): Particle {
    if p.inMolecule then
      p.(inMolecule := false, moleculePoint := None, speedX := p.originalSpeedX, speedY := p.originalSpeedY)
    else p
  }

  /** handleMouseLeave resets every particle, member or not. */
  function MakeAmbient(p: Particle): Particle {
    p.(inDNA := false, inMolecule := false, strand := 0, moleculePoint := None,
       speedX := p.originalSpeedX, speedY := p.originalSpeedY)
  }

  function EvictDna(s: seq<Particle>): (r: seq<Particle>)
    ensures |r| == |s|
  {
    seq(|s|, j requires 0 <= j < |s| => LeaveDna(s[j]))
  }

  function EvictMolecule(s: seq<Particle>): (r: seq<Particle>)
    ensures |r| == |s|
  {
    seq(|s|, j requires 0 <= j < |s| => LeaveMolecule(s[j]))
  }

  function MakeAllAmbient(s: seq<Particle>): (r: seq<Particle>)
    ensures |r| == |s|
  {
    seq(|s|, j requires 0 <= j < |s| => MakeAmbient(s[j]))
  }

  /** Evicting the DNA formation empties it and touches nothing else: a particle that was
      not in it is unchanged, and a member only loses its membership and its strand and
      gets its original speed back. */
  lemma EvictDnaEffect(s: seq<Particle>)
    ensures forall j :: 0 <= j < |s| ==> !EvictDna(s)[j].inDNA
    ensures forall j :: 0 <= j < |s| && !s[j].inDNA ==> EvictDna(s)[j] == s[j]
    ensures forall j :: 0 <= j < |s| && s[j].inDNA ==>
      EvictDna(s)[j] == s[j].(inDNA := false, strand := 0, speedX := s[j].originalSpeedX, speedY := s[j].originalSpeedY)
  {
  }

  lemma EvictMoleculeEffect(s: seq<Particle>)
    ensures forall j :: 0 <= j < |s| ==> !EvictMolecule(s)[j].inMolecule
    ensures forall j :: 0 <= j < |s| && !s[j].inMolecule ==> EvictMolecule(s)[j] == s[j]
    ensures forall j :: 0 <= j < |s| && s[j].inMolecule ==>
      EvictMolecule(s)[j] == s[j].(inMolecule := false, moleculePoint := None,
                                   speedX := s[j].originalSpeedX, speedY := s[j].originalSpeedY)
  {
  }

  /** The first half of handleMouseMove (lines 126-138): the right latch moves from
      `was` to `now`, and a flip to false evicts the DNA formation. */
  function CrossRight(s: seq<Particle>, was: bool, now: bool): (r: seq<Particle>)
    ensures |r| == |s|
  {
    if now != was && !now then EvictDna(s) else s
  }

  /** The second half (lines 140-152), for the left latch and the molecule. */
  function CrossLeft(s: seq<Particle>, was: bool, now: bool): (r: seq<Particle>)
    ensures |r| == |s|
  {
    if now != was && !now then EvictMolecule(s) else s
  }

  // ---------------------------------------------------------------------------
  // Mouse regions (lines 104-114)

  predicate IsInRightSide(x: real, width: nat) { x > width as real * 0.5 }

  predicate IsInLeftSide(x: real, width: nat) { x < width as real * 0.5 }

  /** No mouse position is in both halves; exactly the midline is in neither. */
  lemma SidesExclusive(x: real, width: nat)
    ensures !(IsInRightSide(x, width) && IsInLeftSide(x, width))
    ensures !IsInRightSide(x, width) && !IsInLeftSide(x, width) <==> x == width as real / 2.0
  {
  }

  // ---------------------------------------------------------------------------
  // Responsive layout (lines 321-344) and the DNA anchor (lines 204-207)

  function Scale(width: nat, height: nat): real {
    Max(MinScale, Min(1.0, Min(width as real / 1200.0, height as real / 800.0)))
  }

  lemma ScaleRange(width: nat, height: nat)
    ensures MinScale <= Scale(width, height) <= 1.0
    ensures Scale(width, height) == 1.0 <==> width >= 1200 && height >= 800
    ensures Scale(width, height) == MinScale <==> width <= 720 || height <= 480
  {
  }

  predicate HasSpaceOnLeft(width: nat) { width > MobileBreakpoint && width > 1000 }

  function MoleculeAnchor(width: nat, height: nat): Pos {
    if HasSpaceOnLeft(width) then Pos(width as real * MoleculeCenterX, height as real * MoleculeCenterY)
    else Pos(width as real * 0.5, height as real * CenteredYOffset)
  }

  function DnaAnchorX(width: nat): real { width as real * 0.85 }

  /** The breakpoint test reduces to `width > 1000`; the molecule anchor is on the canvas
      and never right of the midline, while the DNA anchor is right of it. */
  lemma AnchorPlacement(width: nat, height: nat)
    ensures HasSpaceOnLeft(width) <==> width > 1000
    ensures var a := MoleculeAnchor(width, height);
      0.0 <= a.x <= width as real / 2.0 && 0.0 <= a.y <= height as real * 0.4
    ensures width > 0 ==> IsInRightSide(DnaAnchorX(width), width)
  {
  }

  // ---------------------------------------------------------------------------
  // Bond opacity (lines 346-362)

  function BondOpacityTarget(mouseX: real, width: nat): real {
    if mouseX > 0.0 && mouseX < width as real then
      var ratio := mouseX / width as real;
      if ratio >= CenterLine then 0.0
      else if ratio <= FadeStartRatio then 1.0
      else 1.0 - (ratio - FadeStartRatio) / (CenterLine - FadeStartRatio)
    else 0.0
  }

  /** The target is 0 off the canvas and right of the midline, 1 left of 47% of the
      width, linear in between, and always within [0, 1]. */
  lemma BondOpacityTargetSpec(mouseX: real, width: nat)
    ensures 0.0 <= BondOpacityTarget(mouseX, width) <= 1.0
    ensures mouseX <= 0.0 || mouseX >= width as real ==> BondOpacityTarget(mouseX, width) == 0.0
    ensures 0.0 < mouseX < width as real ==>
      var r := mouseX / width as real;
      (r >= 0.5 ==> BondOpacityTarget(mouseX, width) == 0.0) &&
      (r <= 0.47 ==> BondOpacityTarget(mouseX, width) == 1.0) &&
      (0.47 < r < 0.5 ==> BondOpacityTarget(mouseX, width) == 1.0 - (r - 0.47) / 0.03)
  {
  }

  function SmoothBondOpacity(current: real, target: real): real {
    current + (target - current) * MoleculeFadeSpeed
  }

  /** With a fade speed of 1.2 each step lands on the far side of the target, at a fifth
      of the previous distance. */
  lemma SmoothingOvershoots(current: real, target: real)
    ensures SmoothBondOpacity(current, target) - target == -0.2 * (current - target)
    ensures Abs(SmoothBondOpacity(current, target) - target) == 0.2 * Abs(current - target)
    ensures current > target ==> SmoothBondOpacity(current, target) < target
    ensures current < target ==> SmoothBondOpacity(current, target) > target
  {
    var d := current - target;
    assert SmoothBondOpacity(current, target) - target == -0.2 * d;
  }

  /** `mouseXRatio < CENTER_LINE` (line 526).  With a zero width JavaScript divides to
      +Infinity, -Infinity or NaN; only -Infinity compares below 0.5. */
  predicate ShowMolecule(mouseX: real, width: nat) {
    if width > 0 then mouseX / width as real < CenterLine else mouseX < 0.0
  }

  lemma ShowMoleculeLeftOfMidline(mouseX: real, width: nat)
    ensures ShowMolecule(mouseX, width) <==> mouseX < width as real / 2.0
  {
    if width > 0 {
      var w := width as real;
      assert mouseX / w < 0.5 <==> mouseX < w / 2.0 by {
        assert mouseX == (mouseX / w) * w;
      }
    }
  }

  // ---------------------------------------------------------------------------
  // getMoleculePoints (lines 230-245)

  datatype AtomPoint = AtomPoint(x: real, y: real, z: real, size: real)

  function MoleculePoints(atoms: seq<Lactic.AtomPosition>, rotation: real, host: Host): (r: seq<AtomPoint>)
    ensures |r| == |atoms|
  {
    var c, s := host.cos(rotation), host.sin(rotation);
    seq(|atoms|, i requires 0 <= i < |atoms| =>
      var xz := Rotate(atoms[i].x, atoms[i].z, c, s);
      AtomPoint(xz.0, atoms[i].y, xz.1, if i == 1 then 1.0 else 0.8))
  }

  /** The molecule turns rigidly about the vertical axis: heights are kept, and so is
      every atom's distance from the axis when cos^2 + sin^2 = 1. */
  lemma MoleculePointsRigid(atoms: seq<Lactic.AtomPosition>, rotation: real, host: Host)
    requires host.cos(rotation) * host.cos(rotation) + host.sin(rotation) * host.sin(rotation) == 1.0
    ensures forall i :: 0 <= i < |atoms| ==>
      var p := MoleculePoints(atoms, rotation, host)[i];
      p.y == atoms[i].y && p.x * p.x + p.z * p.z == atoms[i].x * atoms[i].x + atoms[i].z * atoms[i].z &&
      p.size == (if i == 1 then 1.0 else 0.8)
  {
    forall i | 0 <= i < |atoms|
      ensures var p := MoleculePoints(atoms, rotation, host)[i];
        p.x * p.x + p.z * p.z == atoms[i].x * atoms[i].x + atoms[i].z * atoms[i].z
    {
      RotateScalesNorm(atoms[i].x, atoms[i].z, host.cos(rotation), host.sin(rotation));
    }
  }

  /** The molecule turns at time * 0.0005 (line 365).  After one full turn, a period
      with period * 0.0005 = 2 * pi, every atom is back at the same point and so at
      the same screen projection, provided the host's cos and sin repeat after 2 * pi. */
  lemma {:induction false} MoleculePointsPeriodic(atoms: seq<Lactic.AtomPosition>, time: real, period: real,
                                                  anchor: Pos, scale: real, host: Host)
    requires period * MoleculeRotationSpeed == 2.0 * host.pi
    requires host.cos(time * MoleculeRotationSpeed + 2.0 * host.pi) == host.cos(time * MoleculeRotationSpeed)
    requires host.sin(time * MoleculeRotationSpeed + 2.0 * host.pi) == host.sin(time * MoleculeRotationSpeed)
    ensures var later := MoleculePoints(atoms, (time + period) * MoleculeRotationSpeed, host);
      var now := MoleculePoints(atoms, time * MoleculeRotationSpeed, host);
      later == now &&
      forall i :: 0 <= i < |atoms| ==> AtomCentre(later[i], anchor, scale) == AtomCentre(now[i], anchor, scale)
  {
    assert (time + period) * MoleculeRotationSpeed == time * MoleculeRotationSpeed + period * MoleculeRotationSpeed;
  }

  // ---------------------------------------------------------------------------
  // The per-particle step of `animate` (lines 443-600)

  /** What one frame's step reads besides the particle. */
  datatype Frame = Frame(
    time: real, width: nat, height: nat,
    dnaX: real, anchor: Pos, mouseX: real, scale: real,
    points: seq<AtomPoint>, host: Host)

  /** A DNA member eases towards its helix slot plus a small oscillation (lines 449-462). */
  function DnaStep(p: Particle, index: int, f: Frame): Particle {
    var pos := DnaPosition(index, f.time, f.dnaX, f.height, f.host);
    var timePhase := f.time * OscillationSpeed + p.id as real * 0.15;
    var noiseX := f.host.sin(timePhase) * OscillationAmount;
    var noiseY := f.host.cos(timePhase + f.host.pi / 2.0) * OscillationAmount;
    var tx, ty := pos.x + noiseX, pos.y + noiseY;
    p.(targetX := Some(tx), targetY := Some(ty),
       x := p.x + (tx - p.x) * FlockingSpeed, y := p.y + (ty - p.y) * FlockingSpeed,
       opacity := if p.strand == 1 then 0.7 else 0.5)
  }

  /** The easing rate of a molecule member: grows with the remaining distance, capped
      at 0.2 (line 571). */
  function MoleculeSpeed(distance: real): real {
    Min(MoleculeFlockingSpeed * (1.0 + distance * 0.05), 0.2)
  }

  /** The place of a molecule member on its atom's sphere this frame (lines 529-565):
      the atom's projected centre plus the sphere point scaled by the sphere radius and
      by the perspective factor of the sphere point's depth. */
  function MoleculeTarget(p: Particle, point: AtomPoint, f: Frame): Pos
    requires p.sphereIndex.Some?
  {
    var sphereRadius := BaseSphereRadius * f.scale;
    var base := AtomCentre(point, f.anchor, f.scale);
    var n := f.host.spherePoint(p.sphereIndex.value, f.time);
    var perspective := point.size * (1.0 + n.z * 0.3);
    Pos(base.x + n.x * sphereRadius * perspective, base.y + n.y * sphereRadius * perspective)
  }

  /** The screen projection of an atom: the molecule anchor plus the rotated point
      scaled by the molecule radius (lines 530-531). */
  function AtomCentre(point: AtomPoint, anchor: Pos, scale: real): Pos {
    var moleculeRadius := BaseMoleculeRadius * scale;
    Pos(anchor.x + point.x * moleculeRadius, anchor.y + point.y * moleculeRadius)
  }

  /** dx * dx + dy * dy between a particle and a target. */
  function GapSquared(p: Particle, t: Pos): real {
    (t.x - p.x) * (t.x - p.x) + (t.y - p.y) * (t.y - p.y)
  }

  /** `a + (t - a) * rate`: one easing step from `a` towards `t`. */
  function Ease(a: real, t: real, rate: real): real {
    a + (t - a) * rate
  }

  /** A visible molecule member eases towards its target (lines 567-579); `flicker`
      is the frame's Math.random() draw. */
  function MoleculeStep(p: Particle, point: AtomPoint, f: Frame, flicker: real): Particle
    requires p.sphereIndex.Some?
  {
    var t := MoleculeTarget(p, point, f);
    var speed := MoleculeSpeed(f.host.sqrt(GapSquared(p, t)));
    var nz := f.host.spherePoint(p.sphereIndex.value, f.time).z;
    p.(targetX := Some(t.x), targetY := Some(t.y),
       x := Ease(p.x, t.x, speed), y := Ease(p.y, t.y, speed),
       opacity := (0.15 + (1.0 + nz) * 0.35) * (0.8 + flicker * 0.2),
       size := 1.5)
  }

  /** A hidden molecule member blends back to its original drift (lines 582-586). */
  function ReturnStep(p: Particle): Particle {
    var sx := p.speedX * BackgroundReturnSpeed + p.originalSpeedX * (1.0 - BackgroundReturnSpeed);
    var sy := p.speedY * BackgroundReturnSpeed + p.originalSpeedY * (1.0 - BackgroundReturnSpeed);
    p.(speedX := sx, speedY := sy, x := p.x + sx, y := p.y + sy,
       opacity := p.opacity + (0.2 - p.opacity) * 0.1)
  }

  /** An ambient particle drifts, wraps at the edges and relaxes its opacity to 0.2
      (lines 590-599). */
  function AmbientStep(p: Particle, width: nat, height: nat): Particle {
    var x := p.x + p.speedX;
    var y := p.y + p.speedY;
    var x1 := if x < 0.0 then width as real else x;
    var x2 := if x1 > width as real then 0.0 else x1;
    var y1 := if y < 0.0 then height as real else y;
    var y2 := if y1 > height as real then 0.0 else y1;
    p.(x := x2, y := y2, opacity := p.opacity + (0.2 - p.opacity) * 0.1)
  }

  /** The atom a member refers to exists in `points` (otherwise `points[...]` would be
      undefined and the frame would throw). */
  predicate AtomInRange(p: Particle, n: nat) {
    p.inMolecule && p.moleculePoint.Some? ==> 0 <= p.moleculePoint.value < n
  }

  function StepParticle(p: Particle, index: int, f: Frame, flicker: real): Particle
    requires AtomInRange(p, |f.points|)
  {
    if p.inDNA && p.targetX.Some? && p.targetY.Some? then DnaStep(p, index, f)
    else if p.inMolecule && p.moleculePoint.Some? && p.sphereIndex.Some? then
      if ShowMolecule(f.mouseX, f.width) then MoleculeStep(p, f.points[p.moleculePoint.value], f, flicker)
      else ReturnStep(p)
    else AmbientStep(p, f.width, f.height)
  }

  /** The whole forEach of lines 443-609; ranks are taken from the lists built before it. */
  function StepAll(s: seq<Particle>, f: Frame, flicker: seq<real>): (r: seq<Particle>)
    requires |flicker| == |s|
    requires forall j :: 0 <= j < |s| ==> AtomInRange(s[j], |f.points|)
    ensures |r| == |s|
  {
    seq(|s|, j requires 0 <= j < |s| => StepParticle(s[j], DnaIndex(s, j), f, flicker[j]))
  }

  /** `r` is the pool `s` after one frame's step. */
  predicate Stepped(r: seq<Particle>, s: seq<Particle>, f: Frame, flicker: seq<real>)
    requires |flicker| == |s|
    requires forall j :: 0 <= j < |s| ==> AtomInRange(s[j], |f.points|)
  {
    r == StepAll(s, f, flicker)
  }

  /** After an ambient step the particle is on the canvas (edges included) and its
      opacity is 10% closer to 0.2. */
  lemma AmbientStepFacts(p: Particle, width: nat, height: nat)
    ensures var q := AmbientStep(p, width, height);
      0.0 <= q.x <= width as real && 0.0 <= q.y <= height as real &&
      q.opacity - 0.2 == 0.9 * (p.opacity - 0.2) &&
      Abs(q.opacity - 0.2) == 0.9 * Abs(p.opacity - 0.2) &&
      q == p.(x := q.x, y := q.y, opacity := q.opacity)
  {
  }

  /** A DNA member closes 15% of its gap to the target each frame; its target is within
      DNA_WIDTH + OSCILLATION_AMOUNT of the anchor column when sin and cos are bounded. */
  lemma DnaStepFacts(p: Particle, index: int, f: Frame)
    ensures var q := DnaStep(p, index, f);
      q.targetX.Some? && q.targetY.Some? &&
      q.x - q.targetX.value == 0.85 * (p.x - q.targetX.value) &&
      q.y - q.targetY.value == 0.85 * (p.y - q.targetY.value) &&
      q.opacity == (if p.strand == 1 then 0.7 else 0.5)
    ensures 0 <= index < 2 * ParticlesPerStrand && SinCosBounded(f.host) ==>
      Abs(DnaStep(p, index, f).targetX.value - f.dnaX) <= DnaWidth + OscillationAmount
  {
    if 0 <= index < 2 * ParticlesPerStrand && SinCosBounded(f.host) {
      DnaPositionBounds(index, f.time, f.dnaX, f.height, f.host);
      var timePhase := f.time * OscillationSpeed + p.id as real * 0.15;
      var noise := f.host.sin(timePhase);
      assert -1.0 <= noise <= 1.0;
    }
  }

  /** The easing rate grows with the distance still to go and stays between
      MOLECULE_FLOCKING_SPEED and 0.2. */
  lemma MoleculeSpeedRange(distance: real)
    requires 0.0 <= distance
    ensures MoleculeFlockingSpeed <= MoleculeSpeed(distance) <= 0.2
    ensures distance <= 75.0 ==> MoleculeSpeed(distance) == MoleculeFlockingSpeed * (1.0 + distance * 0.05)
    ensures distance >= 80.0 ==> MoleculeSpeed(distance) == 0.2
  {
  }

  /** A visible molecule member closes the fraction MoleculeSpeed(distance) of its gap
      to the target each frame. */
  lemma MoleculeStepConverges(p: Particle, point: AtomPoint, f: Frame, flicker: real)
    requires p.sphereIndex.Some?
    ensures var q := MoleculeStep(p, point, f, flicker);
      var t := MoleculeTarget(p, point, f);
      var speed := MoleculeSpeed(f.host.sqrt(GapSquared(p, t)));
      q.targetX == Some(t.x) && q.targetY == Some(t.y) &&
      q.x - q.targetX.value == (1.0 - speed) * (p.x - q.targetX.value) &&
      q.y - q.targetY.value == (1.0 - speed) * (p.y - q.targetY.value) &&
      q.size == 1.5
  {
    var t := MoleculeTarget(p, point, f);
    var speed := MoleculeSpeed(f.host.sqrt(GapSquared(p, t)));
    EaseResidual(p.x, t.x, speed);
    EaseResidual(p.y, t.y, speed);
  }

  /** One easing step at rate `s` leaves the fraction `1 - s` of the gap. */
  lemma EaseResidual(a: real, t: real, s: real)
    ensures Ease(a, t, s) - t == (1.0 - s) * (a - t)
  {
  }

  /** A visible molecule member's opacity stays within [0.12, 0.85) when its sphere
      point is on the unit sphere and the random draw is in [0, 1). */
  lemma MoleculeOpacityRange(p: Particle, point: AtomPoint, f: Frame, flicker: real)
    requires p.sphereIndex.Some?
    requires -1.0 <= f.host.spherePoint(p.sphereIndex.value, f.time).z <= 1.0 && InUnitInterval(flicker)
    ensures 0.12 <= MoleculeStep(p, point, f, flicker).opacity < 0.85
  {
    var nz := f.host.spherePoint(p.sphereIndex.value, f.time).z;
    var base := 0.15 + (1.0 + nz) * 0.35;
    var jitter := 0.8 + flicker * 0.2;
    assert MoleculeStep(p, point, f, flicker).opacity == base * jitter;
    assert 0.15 <= base <= 0.85 && 0.8 <= jitter < 1.0;
    assert base * jitter >= 0.15 * jitter by {
      assert (base - 0.15) * jitter >= 0.0;
    }
    assert base * jitter < 0.85 by {
      assert base * (1.0 - jitter) > 0.0 || base * jitter < base;
    }
  }

  /** The speed blend halves nothing away: the gap to the original speed shrinks to 5%. */
  lemma ReturnStepFacts(p: Particle)
    ensures var q := ReturnStep(p);
      q.speedX - p.originalSpeedX == 0.05 * (p.speedX - p.originalSpeedX) &&
      q.speedY - p.originalSpeedY == 0.05 * (p.speedY - p.originalSpeedY) &&
      q.opacity - 0.2 == 0.9 * (p.opacity - 0.2) &&
      (p.speedX == p.originalSpeedX ==> q.x == p.x + p.originalSpeedX)
  {
  }

  /** The step moves and repaints particles but never changes what formation a particle
      belongs to, its slot, its identity or its original drift. */
  lemma StepKeepsMembership(s: seq<Particle>, f: Frame, flicker: seq<real>)
    requires |flicker| == |s|
    requires forall j :: 0 <= j < |s| ==> AtomInRange(s[j], |f.points|)
    ensures forall j :: 0 <= j < |s| ==>
      var p, q := s[j], StepAll(s, f, flicker)[j];
      q.inDNA == p.inDNA && q.inMolecule == p.inMolecule && q.strand == p.strand &&
      q.moleculePoint == p.moleculePoint && q.sphereIndex == p.sphereIndex && q.id == p.id &&
      q.originalSpeedX == p.originalSpeedX && q.originalSpeedY == p.originalSpeedY &&
      (p.speedX == p.originalSpeedX ==> q.speedX == p.speedX) &&
      (p.speedY == p.originalSpeedY ==> q.speedY == p.speedY) &&
      (p.targetX.Some? ==> q.targetX.Some?) && (p.targetY.Some? ==> q.targetY.Some?)
  {
  }
}
