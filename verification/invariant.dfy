/** What holds of the particle pool between any two events of BackgroundParticles.tsx,
    and the proof that every event keeps it.  No particle is ever in both formations,
    although neither fill checks the other formation's flag on its own (the DNA filter
    at line 259 admits molecule members): it follows from the latches being exclusive
    and from a cleared latch emptying its formation. */
module PoolInvariant {
  import opened HostMath
  import opened Particles
  import opened Selection
  import opened Formation

  /** One particle's fields agree with each other. */
  predicate WellFormed(p: Particle, atoms: nat) {
    p.speedX == p.originalSpeedX && p.speedY == p.originalSpeedY &&
    (if p.inDNA then (p.strand == 1 || p.strand == 2) && p.targetX.Some? && p.targetY.Some?
     else p.strand == 0) &&
    (if p.inMolecule then
       p.moleculePoint.Some? && 0 <= p.moleculePoint.value < atoms &&
       p.sphereIndex.Some? && 0 <= p.sphereIndex.value < ParticlesPerSphere
     else p.moleculePoint == None) &&
    !(p.inDNA && p.inMolecule)
  }

  /** No two molecule members share an (atom, sub-slot) place. */
  predicate MoleculeSlotsDistinct(s: seq<Particle>) {
    forall i, j :: 0 <= i < j < |s| && s[i].inMolecule && s[j].inMolecule ==>
      (s[i].moleculePoint, s[i].sphereIndex) != (s[j].moleculePoint, s[j].sphereIndex)
  }

  predicate NoDna(s: seq<Particle>) { forall j :: 0 <= j < |s| ==> !s[j].inDNA }

  predicate NoMolecule(s: seq<Particle>) { forall j :: 0 <= j < |s| ==> !s[j].inMolecule }

  /** The pool invariant, for the pool `s`, a molecule of `atoms` atoms and the two
      latches. */
  predicate PoolValid(s: seq<Particle>, atoms: nat, inRight: bool, inLeft: bool) {
    !(inRight && inLeft) &&
    (forall j :: 0 <= j < |s| ==> WellFormed(s[j], atoms)) &&
    (!inRight ==> NoDna(s)) &&
    (!inLeft ==> NoMolecule(s)) &&
    Count(s, OnStrand1) <= ParticlesPerStrand && Count(s, OnStrand2) <= ParticlesPerStrand &&
    Count(s, InMolecule) <= atoms * ParticlesPerSphere &&
    MoleculeSlotsDistinct(s) &&
    // a molecule that is not complete has taken every free particle
    (Count(s, InMolecule) > 0 ==>
       Count(s, InMolecule) == atoms * ParticlesPerSphere || Count(s, MoleculeCandidate) == 0)
  }

  /** Never both: the disjointness the engine relies on, stated for a single particle. */
  lemma NeverInBoth(s: seq<Particle>, atoms: nat, inRight: bool, inLeft: bool, j: nat)
    requires PoolValid(s, atoms, inRight, inLeft) && j < |s|
    ensures !(s[j].inDNA && s[j].inMolecule)
    ensures s[j].inDNA ==> inRight && !inLeft
    ensures s[j].inMolecule ==> inLeft && !inRight
  {
    assert WellFormed(s[j], atoms);
  }

  lemma {:induction false} NoMoleculeCount(s: seq<Particle>)
    requires NoMolecule(s)
    ensures Count(s, InMolecule) == 0
  {
    CountNone(s, InMolecule);
  }

  // ---------------------------------------------------------------------------
  // initParticles

  /** A freshly initialised pool is valid whatever the latches hold, as long as they
      are not both set (updateCanvasSize leaves them as they were). */
  lemma InitialPoolValid(draws: seq<Draws>, width: nat, height: nat, atoms: nat, inRight: bool, inLeft: bool)
    requires !(inRight && inLeft)
    ensures PoolValid(InitialPool(draws, width, height), atoms, inRight, inLeft)
    ensures Count(InitialPool(draws, width, height), InMolecule) == 0
  {
    var s := InitialPool(draws, width, height);
    CountNone(s, OnStrand1);
    CountNone(s, OnStrand2);
    CountNone(s, InMolecule);
  }

  // ---------------------------------------------------------------------------
  // handleMouseMove and handleMouseLeave

  lemma EvictDnaValid(s: seq<Particle>, atoms: nat, inRight: bool, inLeft: bool)
    requires PoolValid(s, atoms, inRight, inLeft)
    ensures PoolValid(EvictDna(s), atoms, false, inLeft)
  {
    var r := EvictDna(s);
    EvictDnaEffect(s);
    CountNone(r, OnStrand1);
    CountNone(r, OnStrand2);
    CountAgree(r, s, InMolecule, InMolecule);
    if Count(s, InMolecule) > 0 {
      assert !NoMolecule(s) by {
        if NoMolecule(s) { NoMoleculeCount(s); }
      }
      assert NoDna(s);
      assert r == s;
    }
    assert MoleculeSlotsDistinct(r) by {
      forall i, j | 0 <= i < j < |r| && r[i].inMolecule && r[j].inMolecule
        ensures (r[i].moleculePoint, r[i].sphereIndex) != (r[j].moleculePoint, r[j].sphereIndex)
      {
        assert s[i].inMolecule && s[j].inMolecule;
      }
    }
  }

  lemma EvictMoleculeValid(s: seq<Particle>, atoms: nat, inRight: bool, inLeft: bool)
    requires PoolValid(s, atoms, inRight, inLeft)
    ensures PoolValid(EvictMolecule(s), atoms, inRight, false)
  {
    var r := EvictMolecule(s);
    EvictMoleculeEffect(s);
    CountAgree(r, s, OnStrand1, OnStrand1);
    CountAgree(r, s, OnStrand2, OnStrand2);
    CountNone(r, InMolecule);
  }

  /** handleMouseMove keeps the invariant: both latches are re-read from the same x,
      and each flip to false empties its formation.  (Between the two halves the
      latches can both be set for a moment; the invariant holds again at the end.) */
  lemma MouseMoveValid(s: seq<Particle>, atoms: nat, inRight: bool, inLeft: bool, x: real, width: nat)
    requires PoolValid(s, atoms, inRight, inLeft)
    ensures var nowRight, nowLeft := IsInRightSide(x, width), IsInLeftSide(x, width);
      PoolValid(CrossLeft(CrossRight(s, inRight, nowRight), inLeft, nowLeft), atoms, nowRight, nowLeft)
  {
    var nowRight, nowLeft := IsInRightSide(x, width), IsInLeftSide(x, width);
    SidesExclusive(x, width);
    var s1 := CrossRight(s, inRight, nowRight);
    // after the first half the right latch is `nowRight`, the left one still `inLeft`
    if nowRight != inRight && !nowRight {
      EvictDnaValid(s, atoms, inRight, inLeft);
    }
    assert !nowRight ==> NoDna(s1);
    if nowLeft != inLeft && !nowLeft {
      EvictMoleculeValid(s1, atoms, false, inLeft);
      var r := EvictMolecule(s1);
      EvictMoleculeEffect(s1);
      assert PoolValid(r, atoms, nowRight, nowLeft) by {
        if nowRight {
          // the first half could not have evicted, and the old left latch was set
          assert !inRight || inRight == nowRight;
        }
      }
    }
  }

  /** handleMouseLeave: both latches cleared, every particle ambient. */
  lemma MouseLeaveValid(s: seq<Particle>, atoms: nat, inRight: bool, inLeft: bool)
    requires PoolValid(s, atoms, inRight, inLeft)
    ensures PoolValid(MakeAllAmbient(s), atoms, false, false)
    ensures NoDna(MakeAllAmbient(s)) && NoMolecule(MakeAllAmbient(s))
  {
    var r := MakeAllAmbient(s);
    CountNone(r, OnStrand1);
    CountNone(r, OnStrand2);
    CountNone(r, InMolecule);
  }

  // ---------------------------------------------------------------------------
  // The fills

  lemma FillDnaValid(s: seq<Particle>, atoms: nat, inLeft: bool, time: real, dnaX: real, height: nat, host: Host)
    requires PoolValid(s, atoms, true, inLeft)
    ensures PoolValid(FillDna(s, time, dnaX, height, host), atoms, true, inLeft)
  {
    var r := FillDna(s, time, dnaX, height, host);
    FillDnaShape(s, time, dnaX, height, host);
    FillDnaQuotas(s, time, dnaX, height, host);
    assert NoMolecule(s);
    assert NoMolecule(r);
    NoMoleculeCount(r);
    forall j | 0 <= j < |r| ensures WellFormed(r[j], atoms) {
      assert WellFormed(s[j], atoms);
    }
  }

  lemma FillMoleculeValid(s: seq<Particle>, atoms: nat, inRight: bool, anchor: Pos)
    requires PoolValid(s, atoms, inRight, true)
    ensures PoolValid(FillMolecule(s, atoms, anchor), atoms, inRight, true)
  {
    if Count(s, InMolecule) > 0 {
      FillMoleculeIdle(s, atoms, inRight, anchor);
    } else {
      assert NoMolecule(s) by {
        forall j | 0 <= j < |s| ensures !s[j].inMolecule {
          if s[j].inMolecule { CountSome(s, j, InMolecule); }
        }
      }
      FillMoleculeFromEmpty(s, atoms, inRight, anchor);
    }
  }

  /** A valid pool that has molecule members is complete or has no candidates left,
      so the fill leaves it as it is. */
  lemma {:induction false} FillMoleculeIdle(s: seq<Particle>, atoms: nat, inRight: bool, anchor: Pos)
    requires PoolValid(s, atoms, inRight, true) && Count(s, InMolecule) > 0
    ensures FillMolecule(s, atoms, anchor) == s
  {
    if MoleculeNeeded(s, atoms) > 0 {
      var order := MoleculeOrder(s, anchor);
      assert |order| == 0;
    }
  }

  /** Filling an empty molecule gives recruit k the place (k / 32, k % 32): places in
      range, pairwise distinct. */
  lemma FillMoleculeFromEmpty(s: seq<Particle>, atoms: nat, inRight: bool, anchor: Pos)
    requires PoolValid(s, atoms, inRight, true) && NoMolecule(s)
    ensures PoolValid(FillMolecule(s, atoms, anchor), atoms, inRight, true)
  {
    var needed := MoleculeNeeded(s, atoms);
    NoMoleculeCount(s);
    if needed > 0 {
      var order := MoleculeOrder(s, anchor);
      forall k | 0 <= k < |order| ensures MoleculeCandidate(s[order[k]]) {
        assert order[k] in order;
      }
      AssignMoleculeValid(s, order, needed, atoms, inRight);
      assert FillMolecule(s, atoms, anchor) == Assign(s, order, |order|, MoleculeFill(needed));
    } else {
      assert FillMolecule(s, atoms, anchor) == s;
    }
  }

  /** Handing the sorted candidates of an empty molecule their places keeps the pool
      valid. */
  lemma AssignMoleculeValid(s: seq<Particle>, order: seq<nat>, needed: nat, atoms: nat, inRight: bool)
    requires PoolValid(s, atoms, inRight, true) && NoMolecule(s) && Count(s, InMolecule) == 0
    requires IndicesIn(order, |s|) && Distinct(order) && |order| == Count(s, MoleculeCandidate)
    requires forall k :: 0 <= k < |order| ==> MoleculeCandidate(s[order[k]])
    requires needed == atoms * ParticlesPerSphere
    ensures PoolValid(Assign(s, order, |order|, MoleculeFill(needed)), atoms, inRight, true)
  {
    var r := Assign(s, order, |order|, MoleculeFill(needed));
    AssignMoleculeWellFormed(s, order, needed, atoms);
    AssignMoleculeDistinct(s, order, needed);
    AssignMoleculeCounts(s, order, needed);
    CountAgree(r, s, OnStrand1, OnStrand1);
    CountAgree(r, s, OnStrand2, OnStrand2);
    assert !inRight ==> NoDna(r);
  }

  /** The k-th of m candidates joins while k < needed: membership grows from 0 by
      min(m, needed) and the candidates shrink by as many. */
  lemma AssignMoleculeCounts(s: seq<Particle>, order: seq<nat>, needed: nat)
    requires Count(s, InMolecule) == 0
    requires IndicesIn(order, |s|) && Distinct(order) && |order| == Count(s, MoleculeCandidate)
    requires forall k :: 0 <= k < |order| ==> MoleculeCandidate(s[order[k]])
    ensures var r := Assign(s, order, |order|, MoleculeFill(needed));
      Count(r, InMolecule) == Take(|order|, needed) &&
      Count(r, MoleculeCandidate) == |order| - Take(|order|, needed)
  {
    MoleculeGained(s, order, |order|, needed);
    AssignCount(s, order, |order|, MoleculeFill(needed), InMolecule);
    AssignCount(s, order, |order|, MoleculeFill(needed), MoleculeCandidate);
  }

  lemma {:induction false} AssignMoleculeWellFormed(s: seq<Particle>, order: seq<nat>, needed: nat, atoms: nat)
    requires IndicesIn(order, |s|) && Distinct(order)
    requires forall k :: 0 <= k < |order| ==> MoleculeCandidate(s[order[k]])
    requires forall j :: 0 <= j < |s| ==> WellFormed(s[j], atoms)
    requires needed <= atoms * ParticlesPerSphere
    ensures var r := Assign(s, order, |order|, MoleculeFill(needed));
      forall j :: 0 <= j < |s| ==> WellFormed(r[j], atoms) && r[j].inDNA == s[j].inDNA && r[j].strand == s[j].strand
  {
    var r := Assign(s, order, |order|, MoleculeFill(needed));
    AssignEffect(s, order, MoleculeFill(needed));
    forall j | 0 <= j < |s| ensures WellFormed(r[j], atoms) && r[j].inDNA == s[j].inDNA && r[j].strand == s[j].strand {
      assert WellFormed(s[j], atoms);
      if j in order {
        var k :| 0 <= k < |order| && order[k] == j;
        if k < needed {
          MoleculeSlotInRange(k, atoms, 0);
        }
      }
    }
  }

  lemma {:induction false} AssignMoleculeDistinct(s: seq<Particle>, order: seq<nat>, needed: nat)
    requires IndicesIn(order, |s|) && Distinct(order) && NoMolecule(s)
    ensures MoleculeSlotsDistinct(Assign(s, order, |order|, MoleculeFill(needed)))
  {
    var r := Assign(s, order, |order|, MoleculeFill(needed));
    AssignEffect(s, order, MoleculeFill(needed));
    forall i, j | 0 <= i < j < |r| && r[i].inMolecule && r[j].inMolecule
      ensures (r[i].moleculePoint, r[i].sphereIndex) != (r[j].moleculePoint, r[j].sphereIndex)
    {
      assert i in order && j in order;
      var ki :| 0 <= ki < |order| && order[ki] == i;
      var kj :| 0 <= kj < |order| && order[kj] == j;
      MoleculeSlotsInjective(ki, kj);
    }
  }

  /** Every molecule member of a valid pool names an atom of the molecule. */
  lemma ValidAtomsInRange(s: seq<Particle>, atoms: nat, inRight: bool, inLeft: bool)
    requires PoolValid(s, atoms, inRight, inLeft)
    ensures forall j :: 0 <= j < |s| ==> AtomInRange(s[j], atoms)
  {
    forall j | 0 <= j < |s| ensures AtomInRange(s[j], atoms) {
      assert WellFormed(s[j], atoms);
    }
  }

  // ---------------------------------------------------------------------------
  // The per-particle step

  lemma StepAllValid(s: seq<Particle>, atoms: nat, inRight: bool, inLeft: bool, f: Frame, flicker: seq<real>)
    requires PoolValid(s, atoms, inRight, inLeft)
    requires |f.points| == atoms && |flicker| == |s|
    ensures forall j :: 0 <= j < |s| ==> AtomInRange(s[j], |f.points|)
    ensures PoolValid(StepAll(s, f, flicker), atoms, inRight, inLeft)
  {
    forall j | 0 <= j < |s| ensures AtomInRange(s[j], |f.points|) {
      assert WellFormed(s[j], atoms);
    }
    var r := StepAll(s, f, flicker);
    StepKeepsMembership(s, f, flicker);
    CountAgree(r, s, OnStrand1, OnStrand1);
    CountAgree(r, s, OnStrand2, OnStrand2);
    CountAgree(r, s, InMolecule, InMolecule);
    CountAgree(r, s, MoleculeCandidate, MoleculeCandidate);
    forall j | 0 <= j < |r| ensures WellFormed(r[j], atoms) {
      assert WellFormed(s[j], atoms);
    }
    assert MoleculeSlotsDistinct(r) by {
      forall i, j | 0 <= i < j < |r| && r[i].inMolecule && r[j].inMolecule
        ensures (r[i].moleculePoint, r[i].sphereIndex) != (r[j].moleculePoint, r[j].sphereIndex)
      {
        assert s[i].inMolecule && s[j].inMolecule;
      }
    }
  }

  // ---------------------------------------------------------------------------
  // The helix index of lines 445-447 in a valid pool

  lemma StrandCountsAgree(s: seq<Particle>, atoms: nat, inRight: bool, inLeft: bool)
    requires PoolValid(s, atoms, inRight, inLeft)
    ensures Count(s, Strand1Member) == Count(s, OnStrand1)
    ensures Count(s, Strand2Member) == Count(s, OnStrand2)
  {
    forall j | 0 <= j < |s| ensures Strand1Member(s[j]) <==> OnStrand1(s[j]) {
      assert WellFormed(s[j], atoms);
    }
    forall j | 0 <= j < |s| ensures Strand2Member(s[j]) <==> OnStrand2(s[j]) {
      assert WellFormed(s[j], atoms);
    }
    CountAgree(s, s, Strand1Member, OnStrand1);
    CountAgree(s, s, Strand2Member, OnStrand2);
  }

  /** In a valid pool every DNA member's index is a helix slot of its own strand:
      0 <= index < 200, and getDNAPosition decodes it back to the member's strand and
      its rank among that strand's members. */
  lemma DnaIndexInRange(s: seq<Particle>, atoms: nat, inRight: bool, inLeft: bool, j: nat)
    requires PoolValid(s, atoms, inRight, inLeft) && j < |s| && s[j].inDNA
    ensures 0 <= DnaIndex(s, j) < 2 * ParticlesPerStrand
    ensures StrandOfIndex(DnaIndex(s, j)) == s[j].strand
    ensures StrandIndex(DnaIndex(s, j)) ==
      (if s[j].strand == 1 then RankIn(s, j, Strand1Member) else RankIn(s, j, Strand2Member))
  {
    assert WellFormed(s[j], atoms);
    StrandCountsAgree(s, atoms, inRight, inLeft);
    if s[j].strand == 1 {
      CountBefore(s, j, Strand1Member);
    } else {
      CountBefore(s, j, Strand2Member);
    }
  }

  /** Two different DNA members never share a helix slot. */
  lemma DnaIndexInjective(s: seq<Particle>, atoms: nat, inRight: bool, inLeft: bool, i: nat, j: nat)
    requires PoolValid(s, atoms, inRight, inLeft) && i < |s| && j < |s| && i != j
    requires s[i].inDNA && s[j].inDNA
    ensures DnaIndex(s, i) != DnaIndex(s, j)
  {
    DnaIndexInRange(s, atoms, inRight, inLeft, i);
    DnaIndexInRange(s, atoms, inRight, inLeft, j);
    if s[i].strand == s[j].strand {
      var P := if s[i].strand == 1 then Strand1Member else Strand2Member;
      assert P(s[i]) && P(s[j]);
      RankIsIndexOf(s, i, P);
      RankIsIndexOf(s, j, P);
    }
  }
}
