/** The BackgroundParticles component (BackgroundParticles.tsx) as an object: the refs
    of the component are the fields, the event handlers and one frame of `animate` are
    the methods, and each forEach over the pool is a loop over the particle array.
    Every method is proved to compute the pure functions of Particles, Formation and
    Bonds, and to keep the pool invariant of PoolInvariant. */
module Engine {
  import opened HostMath
  import opened Particles
  import opened Selection
  import opened Formation
  import opened PoolInvariant
  import opened Bonds
  import Lactic

  /** The pool after the two fill sections of a frame (lines 257-318), given the latches
      and the anchors as the frame finds them.  The fills keep the pool invariant. */
  function Recruit(s: seq<Particle>, atoms: nat, inRight: bool, inLeft: bool,
                   time: real, dnaX: real, height: nat, anchor: Pos, host: Host): (r: seq<Particle>)
    requires PoolValid(s, atoms, inRight, inLeft)
    ensures |r| == |s| && PoolValid(r, atoms, inRight, inLeft)
    ensures forall j :: 0 <= j < |r| ==> AtomInRange(r[j], atoms)
  {
    var s1 :=
      if inRight then FillDnaValid(s, atoms, inLeft, time, dnaX, height, host); FillDna(s, time, dnaX, height, host)
      else s;
    var r :=
      if inLeft then FillMoleculeValid(s1, atoms, inRight, anchor); FillMolecule(s1, atoms, anchor)
      else s1;
    ValidAtomsInRange(r, atoms, inRight, inLeft);
    r
  }

  /** The centre of every atom, for the bond loop. */
  function Centers(s: seq<Particle>, atoms: nat): (r: seq<Center>)
    ensures |r| == atoms
  {
    seq(atoms, k requires 0 <= k < atoms => CenterOf(s, k))
  }

  /** The component's refs and state at one moment, as a value (the constant
      molecule tables apart). */
  datatype RefValues = RefValues(particles: array<Particle>, width: nat, height: nat, mouse: Pos,
                                 dnaAnchor: Pos, moleculeAnchor: Pos, bondOpacity: real,
                                 inRight: bool, inLeft: bool, ready: bool)

  /** The refs after the start of a ready frame's drawing: the molecule anchor
      re-centred on the canvas, the bond opacity one easing step nearer its target. */
  function Eased(r: RefValues): RefValues {
    r.(moleculeAnchor := MoleculeAnchor(r.width, r.height),
       bondOpacity := SmoothBondOpacity(r.bondOpacity, BondOpacityTarget(r.mouse.x, r.width)))
  }

  class BackgroundParticles {
    /** The molecule picked when the module loads (ATOM_POSITIONS, MOLECULE_BONDS). */
    const atomPositions: seq<Lactic.AtomPosition>
    const bonds: seq<Lactic.Bond>

    var particles: array<Particle>
    /** The canvas size. */
    var width: nat
    var height: nat
    var mouse: Pos
    /** dnaPositionRef and moleculePositionRef. */
    var dnaAnchor: Pos
    var moleculeAnchor: Pos
    var bondOpacity: real
    /** isInRightSideRef and isInLeftSideRef. */
    var inRight: bool
    var inLeft: bool
    /** canvasReady. */
    var ready: bool

    ghost predicate Valid()
      reads this, particles
    {
      PoolValid(particles[..], |atomPositions|, inRight, inLeft)
    }

    /** The refs as the component first renders (lines 92-101), on a canvas element of
        the default 300 x 150 size. */
    constructor(atomPositions: seq<Lactic.AtomPosition>, bonds: seq<Lactic.Bond>)
      ensures Valid()
      ensures this.atomPositions == atomPositions && this.bonds == bonds
      ensures particles.Length == 0 && width == 300 && height == 150
      ensures mouse == Pos(-1000.0, -1000.0) && dnaAnchor == Pos(0.0, 0.0) && moleculeAnchor == Pos(0.0, 0.0)
      ensures bondOpacity == 0.0 && !inRight && !inLeft && !ready
    {
      this.atomPositions := atomPositions;
      this.bonds := bonds;
      particles := new Particle[0];
      width, height := 300, 150;
      mouse := Pos(-1000.0, -1000.0);
      dnaAnchor, moleculeAnchor := Pos(0.0, 0.0), Pos(0.0, 0.0);
      bondOpacity := 0.0;
      inRight, inLeft := false, false;
      ready := false;
      new;
      assert particles[..] == [];
      CountNone(particles[..], OnStrand1);
      CountNone(particles[..], OnStrand2);
      CountNone(particles[..], InMolecule);
    }

    /** initParticles (lines 179-199): a fresh pool of NUM_PARTICLES particles, the k-th
        built from the k-th group of six Math.random() draws. */
    method InitParticles(draws: seq<Draws>)
      requires Valid() && |draws| == NumParticles
      modifies this
      ensures fresh(particles) && particles[..] == InitialPool(draws, width, height)
      ensures particles.Length == NumParticles
      ensures width == old(width) && height == old(height) && mouse == old(mouse)
      ensures dnaAnchor == old(dnaAnchor) && moleculeAnchor == old(moleculeAnchor)
      ensures bondOpacity == old(bondOpacity) && inRight == old(inRight) && inLeft == old(inLeft)
      ensures ready == old(ready)
      ensures Valid()
    {
      var w, h := width, height;
      particles := new Particle[|draws|](i requires 0 <= i < |draws| => InitialParticle(i, draws[i], w, h));
      assert particles[..] == InitialPool(draws, width, height);
      InitialPoolValid(draws, width, height, |atomPositions|, inRight, inLeft);
    }

    /** updateCanvasSize (lines 201-215): adopt the window size, reset both anchors and
        the bond opacity, rebuild the pool and mark the canvas ready.  The latches and
        the mouse are kept as they were. */
    method UpdateCanvasSize(innerWidth: nat, innerHeight: nat, draws: seq<Draws>)
      requires Valid() && |draws| == NumParticles
      modifies this
      ensures width == innerWidth && height == innerHeight
      ensures dnaAnchor == Pos(DnaAnchorX(innerWidth), innerHeight as real / 2.0)
      ensures moleculeAnchor == Pos(innerWidth as real * MoleculeCenterX, innerHeight as real * MoleculeCenterY)
      ensures bondOpacity == 0.0 && ready
      ensures fresh(particles) && particles[..] == InitialPool(draws, innerWidth, innerHeight)
      ensures inRight == old(inRight) && inLeft == old(inLeft) && mouse == old(mouse)
      ensures Valid()
    {
      width, height := innerWidth, innerHeight;
      dnaAnchor := Pos(DnaAnchorX(width), height as real / 2.0);
      moleculeAnchor := Pos(width as real * MoleculeCenterX, height as real * MoleculeCenterY);
      bondOpacity := 0.0;
      InitParticles(draws);
      ready := true;
    }

    /** The forEach of lines 129-136: every DNA member leaves the helix. */
    method EvictDnaMembers()
      modifies particles
      ensures particles[..] == EvictDna(old(particles[..]))
    {
      var i := 0;
      while i < particles.Length
        invariant 0 <= i <= particles.Length
        invariant particles[..i] == EvictDna(old(particles[..]))[..i]
        invariant forall k :: i <= k < particles.Length ==> particles[k] == old(particles[k])
      {
        var p := particles[i];
        if p.inDNA {
          particles[i] := p.(inDNA := false, strand := 0, speedX := p.originalSpeedX, speedY := p.originalSpeedY);
        }
        assert particles[..i + 1] == particles[..i] + [particles[i]];
        i := i + 1;
      }
    }

    /** The forEach of lines 143-150: every molecule member leaves its sphere. */
    method EvictMoleculeMembers()
      modifies particles
      ensures particles[..] == EvictMolecule(old(particles[..]))
    {
      var i := 0;
      while i < particles.Length
        invariant 0 <= i <= particles.Length
        invariant particles[..i] == EvictMolecule(old(particles[..]))[..i]
        invariant forall k :: i <= k < particles.Length ==> particles[k] == old(particles[k])
      {
        var p := particles[i];
        if p.inMolecule {
          particles[i] := p.(inMolecule := false, moleculePoint := None,
                             speedX := p.originalSpeedX, speedY := p.originalSpeedY);
        }
        assert particles[..i + 1] == particles[..i] + [particles[i]];
        i := i + 1;
      }
    }

    /** handleMouseMove (lines 116-155), with the mouse already in canvas coordinates.
        Nothing happens before the canvas is ready; afterwards each latch is re-read
        from x, a latch that flips to false evicts its formation, and the mouse is
        stored. */
    method MouseMove(x: real, y: real)
      requires Valid()
      modifies this, particles
      ensures particles == old(particles) && width == old(width) && height == old(height)
      ensures dnaAnchor == old(dnaAnchor) && moleculeAnchor == old(moleculeAnchor)
      ensures bondOpacity == old(bondOpacity) && ready == old(ready)
      ensures !old(ready) ==>
        particles[..] == old(particles[..]) && mouse == old(mouse) &&
        inRight == old(inRight) && inLeft == old(inLeft)
      ensures old(ready) ==>
        inRight == IsInRightSide(x, width) && inLeft == IsInLeftSide(x, width) &&
        particles[..] == CrossLeft(CrossRight(old(particles[..]), old(inRight), inRight), old(inLeft), inLeft) &&
        mouse == Pos(x, y)
      ensures Valid()
    {
      if !ready {
        return;
      }
      ghost var s := particles[..];
      MouseMoveValid(s, |atomPositions|, inRight, inLeft, x, width);
      var nowRight := IsInRightSide(x, width);
      var nowLeft := IsInLeftSide(x, width);
      if nowRight != inRight {
        inRight := nowRight;
        if !nowRight {
          EvictDnaMembers();
        }
      }
      assert particles[..] == CrossRight(s, old(inRight), nowRight);
      if nowLeft != inLeft {
        inLeft := nowLeft;
        if !nowLeft {
          EvictMoleculeMembers();
        }
      }
      mouse := Pos(x, y);
    }

    /** handleMouseLeave (lines 157-170): both latches cleared, the mouse parked at
        (-1000, -1000), the bond opacity zeroed, every particle ambient. */
    method MouseLeave()
      requires Valid()
      modifies this, particles
      ensures particles == old(particles) && particles[..] == MakeAllAmbient(old(particles[..]))
      ensures !inRight && !inLeft && mouse == Pos(-1000.0, -1000.0) && bondOpacity == 0.0
      ensures width == old(width) && height == old(height) && ready == old(ready)
      ensures dnaAnchor == old(dnaAnchor) && moleculeAnchor == old(moleculeAnchor)
      ensures Valid()
    {
      MouseLeaveValid(particles[..], |atomPositions|, inRight, inLeft);
      inRight, inLeft := false, false;
      mouse := Pos(-1000.0, -1000.0);
      bondOpacity := 0.0;
      ResetAll();
    }

    /** The forEach of lines 162-169: every particle back to ambient. */
    method ResetAll()
      modifies particles
      ensures particles[..] == MakeAllAmbient(old(particles[..]))
    {
      var i := 0;
      while i < particles.Length
        invariant 0 <= i <= particles.Length
        invariant particles[..i] == MakeAllAmbient(old(particles[..]))[..i]
        invariant particles[i..] == old(particles[..])[i..]
      {
        var p := particles[i];
        particles[i] := p.(inDNA := false, inMolecule := false, strand := 0, moleculePoint := None,
                           speedX := p.originalSpeedX, speedY := p.originalSpeedY);
        assert particles[..i + 1] == particles[..i] + [particles[i]];
        i := i + 1;
      }
    }

    /** The forEach over the sorted candidates (lines 273-287 and 309-316): the k-th
        candidate of `order` gets slot k. */
    method AssignSlots(order: seq<nat>, f: Fill)
      requires IndicesIn(order, particles.Length)
      modifies particles
      ensures particles[..] == Assign(old(particles[..]), order, |order|, f)
    {
      ghost var s := particles[..];
      var i := 0;
      while i < |order|
        invariant 0 <= i <= |order|
        invariant particles[..] == Assign(s, order, i, f)
      {
        var j := order[i];
        particles[j] := Slot(f, particles[j], i);
        i := i + 1;
      }
    }

    /** The DNA section of a frame (lines 258-289). */
    method FillDnaFormation(time: real, host: Host)
      requires Valid() && inRight
      modifies particles
      ensures particles[..] == FillDna(old(particles[..]), time, dnaAnchor.x, height, host)
      ensures Valid()
    {
      var s := particles[..];
      FillDnaValid(s, |atomPositions|, inLeft, time, dnaAnchor.x, height, host);
      var f := DnaFillFor(s, time, dnaAnchor.x, height, host);
      if f.needed1 > 0 || f.needed2 > 0 {
        var order := DnaOrder(s, dnaAnchor.x, height);
        AssignSlots(order, f);
      }
    }

    /** The molecule section of a frame (lines 292-318), around the molecule anchor as
        the previous frame left it. */
    method FillMoleculeFormation()
      requires Valid() && inLeft
      modifies particles
      ensures particles[..] == FillMolecule(old(particles[..]), |atomPositions|, moleculeAnchor)
      ensures Valid()
    {
      var s := particles[..];
      FillMoleculeValid(s, |atomPositions|, inRight, moleculeAnchor);
      var needed := MoleculeNeeded(s, |atomPositions|);
      if needed > 0 {
        var order := MoleculeOrder(s, moleculeAnchor);
        AssignSlots(order, MoleculeFill(needed));
      }
    }

    /** The per-particle forEach of lines 443-609 (drawing left out); DNA ranks come
        from the strand lists built before the loop. */
    method StepParticles(f: Frame, flicker: seq<real>)
      requires Valid() && |f.points| == |atomPositions| && |flicker| == particles.Length
      modifies particles
      ensures Stepped(particles[..], old(particles[..]), f, flicker)
      ensures Valid()
    {
      var s := particles[..];
      StepAllValid(s, |atomPositions|, inRight, inLeft, f, flicker);
      var i := 0;
      while i < particles.Length
        invariant 0 <= i <= particles.Length
        invariant particles[..i] == StepAll(s, f, flicker)[..i]
        invariant particles[i..] == s[i..]
      {
        particles[i] := StepParticle(particles[i], DnaIndex(s, i), f, flicker[i]);
        assert particles[..i + 1] == particles[..i] + [particles[i]];
        i := i + 1;
      }
    }

    /** Both fill sections of a frame (lines 257-318), each under its latch. */
    method RecruitParticles(time: real, host: Host)
      requires Valid()
      modifies particles
      ensures particles[..] == Recruit(old(particles[..]), |atomPositions|, inRight, inLeft,
                                       time, dnaAnchor.x, height, moleculeAnchor, host)
      ensures Valid()
    {
      if inRight {
        FillDnaFormation(time, host);
      }
      if inLeft {
        FillMoleculeFormation();
      }
    }

    /** The bond section of lines 367-435 (the strokes themselves left out): when the
        bonds are visible, the centre of each atom's particles, then one segment per
        bond, shortened by the two sphere radii; otherwise nothing. */
    method BondSegments(points: seq<AtomPoint>, sphereRadius: real, host: Host) returns (drawn: seq<Option<Segment>>)
      requires Valid() && |points| == |atomPositions|
      ensures Strokes(drawn, BondsVisible(bondOpacity, mouse.x), bonds, Centers(particles[..], |atomPositions|),
                      points, sphereRadius, host)
    {
      if !BondsVisible(bondOpacity, mouse.x) {
        return [];
      }
      forall j | 0 <= j < particles.Length
        ensures AtomInRange(particles[j], |atomPositions|)
      {
        assert WellFormed(particles[..][j], |atomPositions|);
      }
      var centers := SphereCenters(particles, |atomPositions|);
      drawn := DrawnBonds(bonds, centers, points, sphereRadius, host);
    }

    /** The refs as one value: the pool array and the scalar state. */
    ghost function Refs(): RefValues
      reads this
    {
      RefValues(particles, width, height, mouse, dnaAnchor, moleculeAnchor, bondOpacity, inRight, inLeft, ready)
    }

    /** One frame of `animate` (lines 248-612) at `Date.now()` = `time`, with one
        Math.random() draw per particle for the molecule flicker; returns what the bond
        loop strokes (empty when the bonds are hidden).  Before the canvas is ready the
        frame does nothing; once it is, the fills of both formations run under the
        latches, around the molecule anchor as the previous frame left it, and the rest
        of the frame works on the recruited pool. */
    method Animate(time: real, host: Host, flicker: seq<real>) returns (drawn: seq<Option<Segment>>)
      requires Valid() && |flicker| == particles.Length
      modifies this, particles
      ensures !old(ready) ==> Refs() == old(Refs()) && particles[..] == old(particles[..]) && drawn == []
      ensures old(ready) ==>
        Advanced(old(Refs()), Recruit(old(particles[..]), |atomPositions|, old(inRight), old(inLeft),
                                      time, old(dnaAnchor.x), old(height), old(moleculeAnchor), host),
                 time, MoleculePoints(atomPositions, time * MoleculeRotationSpeed, host), host, flicker, drawn)
      ensures Valid()
    {
      if !ready {
        return [];
      }
      drawn := Tick(time, host, flicker);
    }

    /** What a ready frame leaves behind after the fills (lines 320-609, drawing left
        out), from the refs `before` the frame and the recruited pool `recruited`: the
        refs eased (`Eased`), every other ref kept; the bond segments are those of
        `recruited` when the bonds are visible; then every particle has taken one step. */
    ghost predicate Advanced(before: RefValues, recruited: seq<Particle>, time: real, points: seq<AtomPoint>,
                             host: Host, flicker: seq<real>, drawn: seq<Option<Segment>>)
      requires |points| == |atomPositions| && |flicker| == |recruited|
      requires forall j :: 0 <= j < |recruited| ==> AtomInRange(recruited[j], |atomPositions|)
      reads this, particles
    {
      var after := Eased(before);
      var scale := Scale(after.width, after.height);
      Refs() == after &&
      Strokes(drawn, BondsVisible(after.bondOpacity, after.mouse.x), bonds, Centers(recruited, |atomPositions|),
              points, BaseSphereRadius * scale, host) &&
      Stepped(particles[..], recruited, Frame(time, after.width, after.height, after.dnaAnchor.x, after.moleculeAnchor,
                                              after.mouse.x, scale, points, host), flicker)
    }

    /** The ready frame (lines 257-609): the fills, then the rest of the frame. */
    method Tick(time: real, host: Host, flicker: seq<real>) returns (drawn: seq<Option<Segment>>)
      requires Valid() && |flicker| == particles.Length
      modifies this, particles
      ensures Advanced(old(Refs()), Recruit(old(particles[..]), |atomPositions|, old(inRight), old(inLeft),
                                            time, old(dnaAnchor.x), old(height), old(moleculeAnchor), host),
                       time, MoleculePoints(atomPositions, time * MoleculeRotationSpeed, host), host, flicker, drawn)
      ensures Valid()
    {
      RecruitParticles(time, host);
      var points := MoleculePoints(atomPositions, time * MoleculeRotationSpeed, host);
      drawn := Advance(time, points, host, flicker);
    }

    /** The molecule anchor re-centred on the canvas (lines 330-344) and the bond
        opacity eased one step towards its target (lines 346-362). */
    method Ease()
      requires Valid()
      modifies this
      ensures Refs() == Eased(old(Refs()))
      ensures Valid()
    {
      moleculeAnchor := MoleculeAnchor(width, height);
      bondOpacity := SmoothBondOpacity(bondOpacity, BondOpacityTarget(mouse.x, width));
    }

    /** Lines 330-435: the refs eased, then the bonds measured on the pool as it is. */
    method Measure(points: seq<AtomPoint>, host: Host) returns (drawn: seq<Option<Segment>>)
      requires Valid() && |points| == |atomPositions|
      modifies this
      ensures Refs() == Eased(old(Refs())) && particles[..] == old(particles[..])
      ensures Strokes(drawn, BondsVisible(Eased(old(Refs())).bondOpacity, Eased(old(Refs())).mouse.x), bonds,
                      Centers(old(particles[..]), |atomPositions|), points,
                      BaseSphereRadius * Scale(Eased(old(Refs())).width, Eased(old(Refs())).height), host)
      ensures Valid()
    {
      ghost var pool := particles[..];
      Ease();
      assert particles[..] == pool;
      drawn := BondSegments(points, BaseSphereRadius * Scale(width, height), host);
    }

    /** The frame after the fills (lines 320-609), given the molecule points of this
        frame (line 365): move the molecule anchor, ease the bond opacity, measure the
        bonds, step every particle. */
    method Advance(time: real, points: seq<AtomPoint>, host: Host, flicker: seq<real>) returns (drawn: seq<Option<Segment>>)
      requires Valid() && |points| == |atomPositions| && |flicker| == particles.Length
      requires forall j :: 0 <= j < particles.Length ==> AtomInRange(particles[j], |atomPositions|)
      modifies this, particles
      ensures Advanced(old(Refs()), old(particles[..]), time, points, host, flicker, drawn)
      ensures Valid()
    {
      drawn := Measure(points, host);
      var frame := Frame(time, width, height, dnaAnchor.x, moleculeAnchor, mouse.x, Scale(width, height), points, host);
      ghost var after := Refs();
      assert frame == Frame(time, after.width, after.height, after.dnaAnchor.x, after.moleculeAnchor,
                            after.mouse.x, Scale(after.width, after.height), points, host);
      StepParticles(frame, flicker);
    }
  }

  /** Between any two events no particle is in both formations, a DNA member is only
      possible while the right latch is set and a molecule member only while the left
      latch is set. */
  lemma FormationsDisjoint(e: BackgroundParticles, j: nat)
    requires e.Valid() && j < e.particles.Length
    ensures !(e.particles[j].inDNA && e.particles[j].inMolecule)
    ensures e.particles[j].inDNA ==> e.inRight && !e.inLeft
    ensures e.particles[j].inMolecule ==> e.inLeft && !e.inRight
  {
    NeverInBoth(e.particles[..], |e.atomPositions|, e.inRight, e.inLeft, j);
  }
}
