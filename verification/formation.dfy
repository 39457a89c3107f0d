/** Filling the two formations (BackgroundParticles.tsx lines 257-318), as functions of
    the pool: filter the candidates, sort them by Manhattan distance to the formation's
    anchor, and hand the k-th of them the k-th free slot.  The engine's loops are proved
    to compute exactly these functions. */
module Formation {
  import opened HostMath
  import opened Particles
  import opened Selection

  /** Manhattan distance of every pool entry to the DNA anchor (dnaX, height / 2)
      (lines 268-271). */
  function DnaKey(s: seq<Particle>, dnaX: real, height: nat): seq<real>
  {
    seq(|s|, j requires 0 <= j < |s| => Abs(s[j].x - dnaX) + Abs(s[j].y - height as real / 2.0))
  }

  /** Manhattan distance of every pool entry to the molecule anchor (lines 303-306). */
  function MoleculeKey(s: seq<Particle>, anchor: Pos): seq<real>
  {
    seq(|s|, j requires 0 <= j < |s| => Abs(s[j].x - anchor.x) + Abs(s[j].y - anchor.y))
  }

  /** What the k-th sorted candidate receives.  For DNA: the quotas `needed1`, `needed2`,
      the counts they were computed from, and `place`, getDNAPosition at this frame's
      time and anchor; for the molecule: the number still needed. */
  datatype Fill =
    | DnaFill(needed1: int, needed2: int, count1: int, count2: int, place: int -> Pos)
    | MoleculeFill(needed: int)

  /** The body of the forEach at lines 273-287 or 309-316 for the k-th candidate. */
  function Slot(f: Fill, p: Particle, k: nat): Particle {
    match f
    case DnaFill(n1, n2, c1, c2, place) =>
      if k < n1 then
        var pos := place(c1 + k);
        p.(inDNA := true, strand := 1, targetX := Some(pos.x), targetY := Some(pos.y))
      else if k < n1 + n2 then
        var pos := place(ParticlesPerStrand + c2 + (k - n1));
        p.(inDNA := true, strand := 2, targetX := Some(pos.x), targetY := Some(pos.y))
      else p
    case MoleculeFill(needed) =>
      // `.slice(0, neededParticles)` then atom floor(i / 32), sub-slot i % 32
      if k < needed then
        p.(inMolecule := true, moleculePoint := Some(k / ParticlesPerSphere),
           sphereIndex := Some(k % ParticlesPerSphere))
      else p
  }

  /** A DNA slot puts the k-th candidate on strand 1 while k < needed1, on strand 2
      while k < needed1 + needed2, and leaves it alone after that. */
  lemma DnaSlotFacts(f: Fill, p: Particle, k: nat)
    requires f.DnaFill?
    ensures var q := Slot(f, p, k);
      (k < f.needed1 ==> q.inDNA && q.strand == 1) &&
      (f.needed1 <= k < f.needed1 + f.needed2 ==> q.inDNA && q.strand == 2) &&
      (k >= f.needed1 && k >= f.needed1 + f.needed2 ==> q == p) &&
      q.inMolecule == p.inMolecule && q.moleculePoint == p.moleculePoint &&
      q.sphereIndex == p.sphereIndex && q.id == p.id && q.x == p.x && q.y == p.y &&
      q.speedX == p.speedX && q.speedY == p.speedY &&
      q.originalSpeedX == p.originalSpeedX && q.originalSpeedY == p.originalSpeedY
  {
  }

  /** The pool after the first `i` sorted candidates have been handled. */
  function Assign(s: seq<Particle>, order: seq<nat>, i: nat, f: Fill): (r: seq<Particle>)
    requires IndicesIn(order, |s|) && i <= |order|
    ensures |r| == |s|
  {
    if i == 0 then s
    else
      var t := Assign(s, order, i - 1, f);
      t[order[i - 1] := Slot(f, t[order[i - 1]], i - 1)]
  }

  lemma {:induction false} AssignOutside(s: seq<Particle>, order: seq<nat>, i: nat, f: Fill, j: nat)
    requires IndicesIn(order, |s|) && i <= |order| && j < |s|
    requires forall k :: 0 <= k < i ==> order[k] != j
    ensures Assign(s, order, i, f)[j] == s[j]
  {
    if i > 0 {
      AssignOutside(s, order, i - 1, f, j);
    }
  }

  lemma {:induction false} AssignInside(s: seq<Particle>, order: seq<nat>, i: nat, f: Fill, k: nat)
    requires IndicesIn(order, |s|) && Distinct(order) && k < i <= |order|
    ensures Assign(s, order, i, f)[order[k]] == Slot(f, s[order[k]], k)
  {
    if k == i - 1 {
      AssignOutside(s, order, i - 1, f, order[k]);
    } else {
      AssignInside(s, order, i - 1, f, k);
    }
  }

  /** The effect of handling all of `order`: the k-th entry gets the k-th slot, and
      every pool entry outside `order` is untouched. */
  lemma AssignEffect(s: seq<Particle>, order: seq<nat>, f: Fill)
    requires IndicesIn(order, |s|) && Distinct(order)
    ensures forall k :: 0 <= k < |order| ==> Assign(s, order, |order|, f)[order[k]] == Slot(f, s[order[k]], k)
    ensures forall j :: 0 <= j < |s| && j !in order ==> Assign(s, order, |order|, f)[j] == s[j]
  {
    forall k | 0 <= k < |order| ensures Assign(s, order, |order|, f)[order[k]] == Slot(f, s[order[k]], k) {
      AssignInside(s, order, |order|, f, k);
    }
    forall j | 0 <= j < |s| && j !in order ensures Assign(s, order, |order|, f)[j] == s[j] {
      AssignOutside(s, order, |order|, f, j);
    }
  }

  // ---------------------------------------------------------------------------
  // Counting what a fill adds

  function Ind(b: bool): int { if b then 1 else 0 }

  /** How many members of P the first `i` slots add (net of the members they replace). */
  function Gained(s: seq<Particle>, order: seq<nat>, i: nat, f: Fill, P: Particle -> bool): int
    requires IndicesIn(order, |s|) && i <= |order|
  {
    if i == 0 then 0
    else Gained(s, order, i - 1, f, P) + Ind(P(Slot(f, s[order[i - 1]], i - 1))) - Ind(P(s[order[i - 1]]))
  }

  lemma {:induction false} AssignCount(s: seq<Particle>, order: seq<nat>, i: nat, f: Fill, P: Particle -> bool)
    requires IndicesIn(order, |s|) && Distinct(order) && i <= |order|
    ensures Count(Assign(s, order, i, f), P) == Count(s, P) + Gained(s, order, i, f, P)
  {
    if i > 0 {
      AssignCount(s, order, i - 1, f, P);
      AssignOutside(s, order, i - 1, f, order[i - 1]);
      var t := Assign(s, order, i - 1, f);
      CountUpdate(t, order[i - 1], Slot(f, t[order[i - 1]], i - 1), P);
    }
  }

  /** `|{k : 0 <= k < i && k < n}|`. */
  function Take(i: nat, n: int): nat {
    if n <= 0 then 0 else if i < n then i else n
  }

  // ---------------------------------------------------------------------------
  // The DNA fill (lines 258-289)

  function DnaOrder(s: seq<Particle>, dnaX: real, height: nat): (order: seq<nat>)
    ensures IndicesIn(order, |s|) && Distinct(order) && |order| == Count(s, DnaCandidate)
    ensures forall j :: 0 <= j < |s| ==> (j in order <==> DnaCandidate(s[j]))
  {
    var cand := Where(s, DnaCandidate);
    SortedOrderDistinct(DnaKey(s, dnaX, height), cand);
    SortByKey(DnaKey(s, dnaX, height), cand)
  }

  /** A sorted copy of a filtered list is a permutation of distinct pool indices. */
  lemma SortedOrderDistinct(key: seq<real>, cand: seq<nat>)
    requires IndicesIn(cand, |key|) && Increasing(cand)
    ensures Distinct(SortByKey(key, cand))
    ensures forall j :: j in SortByKey(key, cand) <==> j in cand
  {
    SortByKeySorted(key, cand);
    SortedIsDistinct(key, SortByKey(key, cand));
    assert forall j :: j in SortByKey(key, cand) <==> j in multiset(SortByKey(key, cand));
    assert forall j :: j in cand <==> j in multiset(cand);
  }

  function DnaFillFor(s: seq<Particle>, time: real, dnaX: real, height: nat, host: Host): Fill {
    var c1 := Count(s, OnStrand1);
    var c2 := Count(s, OnStrand2);
    DnaFill(ParticlesPerStrand - c1, ParticlesPerStrand - c2, c1, c2,
            i => DnaPosition(i, time, dnaX, height, host))
  }

  /** The pool after the DNA section of one frame with the right latch set. */
  function FillDna(s: seq<Particle>, time: real, dnaX: real, height: nat, host: Host): (r: seq<Particle>)
    ensures |r| == |s|
  {
    var f := DnaFillFor(s, time, dnaX, height, host);
    if f.needed1 > 0 || f.needed2 > 0 then
      var order := DnaOrder(s, dnaX, height);
      Assign(s, order, |order|, f)
    else s
  }

  lemma {:induction false} DnaGained(s: seq<Particle>, order: seq<nat>, i: nat, f: Fill)
    requires IndicesIn(order, |s|) && i <= |order| && f.DnaFill?
    requires f.needed1 >= 0 && f.needed2 >= 0
    requires forall k :: 0 <= k < |order| ==> !s[order[k]].inDNA
    requires forall j :: 0 <= j < |s| && !s[j].inDNA ==> s[j].strand == 0
    ensures Gained(s, order, i, f, OnStrand1) == Take(i, f.needed1)
    ensures Gained(s, order, i, f, OnStrand2) == Take(i, f.needed1 + f.needed2) - Take(i, f.needed1)
  {
    if i > 0 {
      DnaGained(s, order, i - 1, f);
      DnaSlotFacts(f, s[order[i - 1]], i - 1);
    }
  }

  /** The strand counts of `r`, the pool after a DNA fill of `s`: from strand counts c1
      and c2, strand 1 has grown by min(100 - c1, m) and strand 2 by the next
      min(100 - c2, m - (100 - c1)) candidates, where m is the number of candidates. */
  predicate DnaFillCounted(s: seq<Particle>, r: seq<Particle>) {
    var c1, c2, m := Count(s, OnStrand1), Count(s, OnStrand2), Count(s, DnaCandidate);
    var n1, n2 := ParticlesPerStrand - c1, ParticlesPerStrand - c2;
    Count(r, OnStrand1) == c1 + Take(m, n1) &&
    Count(r, OnStrand2) == c2 + Take(m, n1 + n2) - Take(m, n1)
  }

  /** The DNA fill, from strand counts c1, c2 <= 100 among particles that are all
      strand 0 when not in DNA, adds candidates to the strands as DnaFillCounted says. */
  lemma FillDnaCounts(s: seq<Particle>, time: real, dnaX: real, height: nat, host: Host)
    requires Count(s, OnStrand1) <= ParticlesPerStrand && Count(s, OnStrand2) <= ParticlesPerStrand
    requires forall j :: 0 <= j < |s| && !s[j].inDNA ==> s[j].strand == 0
    ensures DnaFillCounted(s, FillDna(s, time, dnaX, height, host))
  {
    if Count(s, OnStrand1) < ParticlesPerStrand || Count(s, OnStrand2) < ParticlesPerStrand {
      FillDnaCountsActive(s, time, dnaX, height, host);
    } else {
      FillDnaCountsIdle(s, time, dnaX, height, host);
    }
  }

  /** With a quota open, the fill is the assignment along the sorted candidates. */
  lemma FillDnaCountsActive(s: seq<Particle>, time: real, dnaX: real, height: nat, host: Host)
    requires Count(s, OnStrand1) < ParticlesPerStrand || Count(s, OnStrand2) < ParticlesPerStrand
    requires Count(s, OnStrand1) <= ParticlesPerStrand && Count(s, OnStrand2) <= ParticlesPerStrand
    requires forall j :: 0 <= j < |s| && !s[j].inDNA ==> s[j].strand == 0
    ensures DnaFillCounted(s, FillDna(s, time, dnaX, height, host))
  {
    var f := DnaFillFor(s, time, dnaX, height, host);
    var order := DnaOrder(s, dnaX, height);
    forall k | 0 <= k < |order| ensures !s[order[k]].inDNA {
      assert order[k] in order;
    }
    AssignDnaCounted(s, order, f);
    assert FillDna(s, time, dnaX, height, host) == Assign(s, order, |order|, f);
  }

  /** Assigning the quotas of `f` along all `m` candidates gives the counts of
      DnaFillCounted. */
  lemma AssignDnaCounted(s: seq<Particle>, order: seq<nat>, f: Fill)
    requires IndicesIn(order, |s|) && Distinct(order) && |order| == Count(s, DnaCandidate)
    requires f.DnaFill? && f.needed1 == ParticlesPerStrand - Count(s, OnStrand1)
    requires f.needed2 == ParticlesPerStrand - Count(s, OnStrand2)
    requires f.needed1 >= 0 && f.needed2 >= 0
    requires forall k :: 0 <= k < |order| ==> !s[order[k]].inDNA
    requires forall j :: 0 <= j < |s| && !s[j].inDNA ==> s[j].strand == 0
    ensures DnaFillCounted(s, Assign(s, order, |order|, f))
  {
    AssignDnaCounts(s, order, f);
  }

  /** With both strands full, the fill changes nothing. */
  lemma FillDnaCountsIdle(s: seq<Particle>, time: real, dnaX: real, height: nat, host: Host)
    requires Count(s, OnStrand1) == ParticlesPerStrand && Count(s, OnStrand2) == ParticlesPerStrand
    ensures DnaFillCounted(s, FillDna(s, time, dnaX, height, host))
  {
    assert FillDna(s, time, dnaX, height, host) == s;
  }

  /** Neither strand ends the fill above 100, and both reach exactly 100 when there are
      enough candidates. */
  lemma {:induction false} FillDnaQuotas(s: seq<Particle>, time: real, dnaX: real, height: nat, host: Host)
    requires Count(s, OnStrand1) <= ParticlesPerStrand && Count(s, OnStrand2) <= ParticlesPerStrand
    requires forall j :: 0 <= j < |s| && !s[j].inDNA ==> s[j].strand == 0
    ensures var r := FillDna(s, time, dnaX, height, host);
      Count(r, OnStrand1) <= ParticlesPerStrand && Count(r, OnStrand2) <= ParticlesPerStrand &&
      (Count(s, DnaCandidate) >= 200 - Count(s, OnStrand1) - Count(s, OnStrand2) ==>
         Count(r, OnStrand1) == ParticlesPerStrand && Count(r, OnStrand2) == ParticlesPerStrand)
  {
    var r := FillDna(s, time, dnaX, height, host);
    var c1, c2, m := Count(s, OnStrand1), Count(s, OnStrand2), Count(s, DnaCandidate);
    var r1, r2 := Count(r, OnStrand1), Count(r, OnStrand2);
    var n1, n2 := ParticlesPerStrand - c1, ParticlesPerStrand - c2;
    FillDnaCounts(s, time, dnaX, height, host);
    assert r1 == c1 + Take(m, n1);
    assert r2 == c2 + Take(m, n1 + n2) - Take(m, n1);
    TakeQuotas(m, c1, c2, n1, n2, r1, r2);
  }

  /** Handling every candidate of `order` (all on strand 0) adds Take(|order|, needed1)
      to strand 1 and the next Take(|order|, needed1 + needed2) - Take(|order|, needed1)
      to strand 2. */
  lemma AssignDnaCounts(s: seq<Particle>, order: seq<nat>, f: Fill)
    requires IndicesIn(order, |s|) && Distinct(order) && f.DnaFill?
    requires f.needed1 >= 0 && f.needed2 >= 0
    requires forall k :: 0 <= k < |order| ==> !s[order[k]].inDNA
    requires forall j :: 0 <= j < |s| && !s[j].inDNA ==> s[j].strand == 0
    ensures Count(Assign(s, order, |order|, f), OnStrand1) == Count(s, OnStrand1) + Take(|order|, f.needed1)
    ensures Count(Assign(s, order, |order|, f), OnStrand2) ==
      Count(s, OnStrand2) + Take(|order|, f.needed1 + f.needed2) - Take(|order|, f.needed1)
  {
    DnaGained(s, order, |order|, f);
    AssignCount(s, order, |order|, f, OnStrand1);
    AssignCount(s, order, |order|, f, OnStrand2);
  }

  /** The quota arithmetic: with c1, c2 <= 100 neither strand passes 100. */
  lemma TakeQuotas(m: nat, c1: nat, c2: nat, n1: int, n2: int, r1: int, r2: int)
    requires c1 <= 100 && c2 <= 100 && n1 == 100 - c1 && n2 == 100 - c2
    requires r1 == c1 + Take(m, n1)
    requires r2 == c2 + Take(m, n1 + n2) - Take(m, n1)
    ensures r1 <= 100 && r2 <= 100
    ensures m >= n1 + n2 ==> r1 == 100 && r2 == 100
  {
  }

  /** The DNA fill only recruits: a particle is either untouched, or was a candidate
      and now belongs to strand 1 or 2 with a target set, everything else kept. */
  lemma FillDnaShape(s: seq<Particle>, time: real, dnaX: real, height: nat, host: Host)
    ensures forall j :: 0 <= j < |s| ==>
      var p, q := s[j], FillDna(s, time, dnaX, height, host)[j];
      q == p ||
      (!p.inDNA && q.inDNA && (q.strand == 1 || q.strand == 2) && q.targetX.Some? && q.targetY.Some? &&
       q == p.(inDNA := true, strand := q.strand, targetX := q.targetX, targetY := q.targetY))
  {
    var f := DnaFillFor(s, time, dnaX, height, host);
    if f.needed1 > 0 || f.needed2 > 0 {
      var order := DnaOrder(s, dnaX, height);
      AssignEffect(s, order, f);
      forall j | 0 <= j < |s|
        ensures var p, q := s[j], FillDna(s, time, dnaX, height, host)[j];
          q == p ||
          (!p.inDNA && q.inDNA && (q.strand == 1 || q.strand == 2) && q.targetX.Some? && q.targetY.Some? &&
           q == p.(inDNA := true, strand := q.strand, targetX := q.targetX, targetY := q.targetY))
      {
        if j in order {
          var k :| 0 <= k < |order| && order[k] == j;
          assert DnaCandidate(s[j]);
        }
      }
    }
  }

  /** The fill takes the closest candidates: no particle it recruits is farther from
      the DNA anchor than a candidate it leaves out. */
  lemma FillDnaTakesClosest(s: seq<Particle>, time: real, dnaX: real, height: nat, host: Host, a: nat, b: nat)
    requires a < |s| && b < |s|
    requires var r := FillDna(s, time, dnaX, height, host);
      !s[a].inDNA && r[a].inDNA && !s[b].inDNA && !r[b].inDNA
    ensures DnaKey(s, dnaX, height)[a] <= DnaKey(s, dnaX, height)[b]
  {
    var f := DnaFillFor(s, time, dnaX, height, host);
    var key := DnaKey(s, dnaX, height);
    var order := DnaOrder(s, dnaX, height);
    assert f.needed1 > 0 || f.needed2 > 0;
    AssignEffect(s, order, f);
    var ka :| 0 <= ka < |order| && order[ka] == a;
    var kb :| 0 <= kb < |order| && order[kb] == b;
    DnaSlotFacts(f, s[a], ka);
    DnaSlotFacts(f, s[b], kb);
    assert ka < f.needed1 || ka < f.needed1 + f.needed2;
    assert kb >= f.needed1 && kb >= f.needed1 + f.needed2;
    var cand := Where(s, DnaCandidate);
    SortedOrderDistinct(key, cand);
    PrefixIsClosest(key, cand, ka + 1);
  }

  // ---------------------------------------------------------------------------
  // The molecule fill (lines 292-318)

  function MoleculeOrder(s: seq<Particle>, anchor: Pos): (order: seq<nat>)
    ensures IndicesIn(order, |s|) && Distinct(order) && |order| == Count(s, MoleculeCandidate)
    ensures forall j :: 0 <= j < |s| ==> (j in order <==> MoleculeCandidate(s[j]))
  {
    var cand := Where(s, MoleculeCandidate);
    SortedOrderDistinct(MoleculeKey(s, anchor), cand);
    SortByKey(MoleculeKey(s, anchor), cand)
  }

  /** `MOLECULE_POINTS * PARTICLES_PER_SPHERE - currentMoleculeParticles.length`. */
  function MoleculeNeeded(s: seq<Particle>, atoms: nat): int {
    atoms * ParticlesPerSphere - Count(s, InMolecule)
  }

  /** The pool after the molecule section of one frame with the left latch set;
      `anchor` is the molecule position as the previous frame left it. */
  function FillMolecule(s: seq<Particle>, atoms: nat, anchor: Pos): (r: seq<Particle>)
    ensures |r| == |s|
  {
    var needed := MoleculeNeeded(s, atoms);
    if needed > 0 then
      var order := MoleculeOrder(s, anchor);
      Assign(s, order, |order|, MoleculeFill(needed))
    else s
  }

  lemma {:induction false} MoleculeGained(s: seq<Particle>, order: seq<nat>, i: nat, needed: int)
    requires IndicesIn(order, |s|) && i <= |order|
    requires forall k :: 0 <= k < |order| ==> MoleculeCandidate(s[order[k]])
    ensures Gained(s, order, i, MoleculeFill(needed), InMolecule) == Take(i, needed)
    ensures Gained(s, order, i, MoleculeFill(needed), MoleculeCandidate) == -(Take(i, needed) as int)
  {
    if i > 0 {
      MoleculeGained(s, order, i - 1, needed);
    }
  }

  /** The molecule fill recruits min(needed, m) of the m candidates, so membership never
      exceeds atoms * 32; if it stops short, no candidate is left. */
  lemma FillMoleculeCounts(s: seq<Particle>, atoms: nat, anchor: Pos)
    ensures var c, m := Count(s, InMolecule), Count(s, MoleculeCandidate);
      var r := FillMolecule(s, atoms, anchor);
      var needed := atoms * ParticlesPerSphere - c;
      Count(r, InMolecule) == c + Take(m, needed) &&
      Count(r, MoleculeCandidate) == m - Take(m, needed) &&
      (c <= atoms * ParticlesPerSphere ==> Count(r, InMolecule) <= atoms * ParticlesPerSphere) &&
      (Count(r, InMolecule) < atoms * ParticlesPerSphere ==> Count(r, MoleculeCandidate) == 0)
  {
    var needed := MoleculeNeeded(s, atoms);
    var order := MoleculeOrder(s, anchor);
    if needed > 0 {
      forall k | 0 <= k < |order| ensures MoleculeCandidate(s[order[k]]) {
      }
      MoleculeGained(s, order, |order|, needed);
      AssignCount(s, order, |order|, MoleculeFill(needed), InMolecule);
      AssignCount(s, order, |order|, MoleculeFill(needed), MoleculeCandidate);
    }
  }

  /** The molecule fill only recruits: a particle is either untouched, or was a
      candidate and now sits at atom floor(k / 32) < atoms, sub-slot k mod 32, for its
      position k among the sorted candidates, with k < needed. */
  lemma FillMoleculeShape(s: seq<Particle>, atoms: nat, anchor: Pos)
    ensures forall j :: 0 <= j < |s| ==>
      var p, q := s[j], FillMolecule(s, atoms, anchor)[j];
      q == p ||
      (MoleculeCandidate(p) && q.inMolecule &&
       exists k: nat :: k < MoleculeNeeded(s, atoms) &&
         q == p.(inMolecule := true, moleculePoint := Some(k / 32), sphereIndex := Some(k % 32)))
  {
    var needed := MoleculeNeeded(s, atoms);
    if needed > 0 {
      var order := MoleculeOrder(s, anchor);
      AssignEffect(s, order, MoleculeFill(needed));
      forall j | 0 <= j < |s| && j in order
        ensures var p, q := s[j], FillMolecule(s, atoms, anchor)[j];
          q == p ||
          (MoleculeCandidate(p) && q.inMolecule &&
           exists k: nat :: k < MoleculeNeeded(s, atoms) &&
             q == p.(inMolecule := true, moleculePoint := Some(k / 32), sphereIndex := Some(k % 32)))
      {
        var k :| 0 <= k < |order| && order[k] == j;
        assert FillMolecule(s, atoms, anchor)[j] == Slot(MoleculeFill(needed), s[j], k);
      }
    }
  }

  /** Every atom a recruit is given exists: k < needed <= atoms * 32 gives
      floor(k / 32) < atoms, and the sub-slot is below 32. */
  lemma MoleculeSlotInRange(k: nat, atoms: nat, c: nat)
    requires k < atoms * ParticlesPerSphere - c
    ensures 0 <= k / 32 < atoms && 0 <= k % 32 < 32
  {
  }

  /** Distinct positions among the sorted candidates get distinct (atom, sub-slot)
      pairs. */
  lemma MoleculeSlotsInjective(k1: nat, k2: nat)
    requires k1 != k2
    ensures (k1 / 32, k1 % 32) != (k2 / 32, k2 % 32)
  {
    assert k1 == 32 * (k1 / 32) + k1 % 32;
    assert k2 == 32 * (k2 / 32) + k2 % 32;
  }

  /** The molecule fill takes the closest candidates. */
  lemma FillMoleculeTakesClosest(s: seq<Particle>, atoms: nat, anchor: Pos, a: nat, b: nat)
    requires a < |s| && b < |s|
    requires var r := FillMolecule(s, atoms, anchor);
      MoleculeCandidate(s[a]) && r[a].inMolecule && MoleculeCandidate(s[b]) && !r[b].inMolecule
    ensures MoleculeKey(s, anchor)[a] <= MoleculeKey(s, anchor)[b]
  {
    var needed := MoleculeNeeded(s, atoms);
    var key := MoleculeKey(s, anchor);
    var order := MoleculeOrder(s, anchor);
    assert needed > 0;
    AssignEffect(s, order, MoleculeFill(needed));
    var ka :| 0 <= ka < |order| && order[ka] == a;
    var kb :| 0 <= kb < |order| && order[kb] == b;
    assert ka < needed;
    assert kb >= needed;
    var cand := Where(s, MoleculeCandidate);
    SortedOrderDistinct(key, cand);
    PrefixIsClosest(key, cand, ka + 1);
  }
}
