/** The lactic-acid geometry table (src/constants/molecules/lactic.ts): twelve atom
    positions in a normalised cube and the eleven bonded index pairs between them. */
module Lactic {

  datatype AtomPosition = AtomPosition(x: real, y: real, z: real)

  /** A bond joins two 0-based atom indices. */
  type Bond = (int, int)

  const MoleculeBonds: seq<Bond> :=
    [(0, 3), (0, 10), (1, 5), (1, 11), (2, 5), (3, 4), (3, 5), (3, 6), (4, 7), (4, 8), (4, 9)]

  /** The 1-based atom numbers in the `// Bond a-b` comment beside each pair. */
  const BondLabels: seq<(int, int)> :=
    [(1, 4), (1, 11), (2, 6), (2, 12), (3, 6), (4, 5), (4, 6), (4, 7), (5, 8), (5, 9), (5, 10)]

  const AtomPositions: seq<AtomPosition> := [
    AtomPosition(-0.2484, 0.3384, 0.0425),
    AtomPosition(0.4296, -0.1698, 0.0578),
    AtomPosition(0.3679, 0.3376, -0.1011),
    AtomPosition(-0.0881, 0.0483, 0.0905),
    AtomPosition(-0.2436, -0.1995, -0.1161),
    AtomPosition(0.2552, 0.0931, 0.0030),
    AtomPosition(-0.1057, -0.0137, 0.3404),
    AtomPosition(-0.2242, -0.1368, -0.3661),
    AtomPosition(-0.4956, -0.2171, -0.0625),
    AtomPosition(-0.1358, -0.4316, -0.0833),
    AtomPosition(-0.1633, 0.4898, 0.1922),
    AtomPosition(0.6521, -0.1387, 0.0027)
  ]

  lemma TableSizes()
    ensures |AtomPositions| == 12 && |MoleculeBonds| == 11 && |BondLabels| == 11
  {
  }

  /** Every bond names two atoms of the table, the smaller first, and the list is in
      strictly increasing lexicographic order: no self-bond and no bond twice. */
  lemma BondsWellFormed()
    ensures forall k :: 0 <= k < |MoleculeBonds| ==>
      0 <= MoleculeBonds[k].0 < MoleculeBonds[k].1 < |AtomPositions|
    ensures forall k :: 0 <= k < |MoleculeBonds| - 1 ==>
      MoleculeBonds[k].0 < MoleculeBonds[k + 1].0 ||
      (MoleculeBonds[k].0 == MoleculeBonds[k + 1].0 && MoleculeBonds[k].1 < MoleculeBonds[k + 1].1)
  {
  }

  /** The comments number atoms from 1: each comment is its pair shifted by one. */
  lemma BondLabelsAreOneBased()
    ensures forall k :: 0 <= k < |MoleculeBonds| ==>
      BondLabels[k] == (MoleculeBonds[k].0 + 1, MoleculeBonds[k].1 + 1)
  {
  }

  /** Every coordinate lies strictly inside the cube [-1, 1]^3. */
  lemma CoordinatesInsideUnitCube()
    ensures forall k :: 0 <= k < |AtomPositions| ==>
      -1.0 < AtomPositions[k].x < 1.0 && -1.0 < AtomPositions[k].y < 1.0 && -1.0 < AtomPositions[k].z < 1.0
  {
  }

  /** `a` and `b` are joined by a bond of `bonds`, in either direction. */
  predicate Bonded(bonds: seq<Bond>, a: int, b: int) {
    exists k :: 0 <= k < |bonds| && (bonds[k] == (a, b) || bonds[k] == (b, a))
  }

  /** `path` is a walk along bonds. */
  predicate IsWalk(bonds: seq<Bond>, path: seq<int>) {
    forall i :: 0 <= i < |path| - 1 ==> Bonded(bonds, path[i], path[i + 1])
  }

  /** The walk from atom 0 to `a` that the bond table provides. */
  function WalkFromRoot(a: int): (path: seq<int>)
    requires 0 <= a < |AtomPositions|
    ensures |path| >= 1 && path[0] == 0 && path[|path| - 1] == a
    ensures IsWalk(MoleculeBonds, path)
  {
    // 0-3, 0-10, 1-5, 1-11, 2-5, 3-4, 3-5, 3-6, 4-7, 4-8, 4-9
    assert Bonded(MoleculeBonds, 0, 3) by { assert MoleculeBonds[0] == (0, 3); }
    assert Bonded(MoleculeBonds, 0, 10) by { assert MoleculeBonds[1] == (0, 10); }
    assert Bonded(MoleculeBonds, 5, 1) by { assert MoleculeBonds[2] == (1, 5); }
    assert Bonded(MoleculeBonds, 1, 11) by { assert MoleculeBonds[3] == (1, 11); }
    assert Bonded(MoleculeBonds, 5, 2) by { assert MoleculeBonds[4] == (2, 5); }
    assert Bonded(MoleculeBonds, 3, 4) by { assert MoleculeBonds[5] == (3, 4); }
    assert Bonded(MoleculeBonds, 3, 5) by { assert MoleculeBonds[6] == (3, 5); }
    assert Bonded(MoleculeBonds, 3, 6) by { assert MoleculeBonds[7] == (3, 6); }
    assert Bonded(MoleculeBonds, 4, 7) by { assert MoleculeBonds[8] == (4, 7); }
    assert Bonded(MoleculeBonds, 4, 8) by { assert MoleculeBonds[9] == (4, 8); }
    assert Bonded(MoleculeBonds, 4, 9) by { assert MoleculeBonds[10] == (4, 9); }
    match a
    case 0 => [0]
    case 1 => [0, 3, 5, 1]
    case 2 => [0, 3, 5, 2]
    case 3 => [0, 3]
    case 4 => [0, 3, 4]
    case 5 => [0, 3, 5]
    case 6 => [0, 3, 6]
    case 7 => [0, 3, 4, 7]
    case 8 => [0, 3, 4, 8]
    case 9 => [0, 3, 4, 9]
    case 10 => [0, 10]
    case 11 => [0, 3, 5, 1, 11]
  }

  /** Some walk along `bonds` leads from atom 0 to atom `a`. */
  ghost predicate ReachableFromRoot(bonds: seq<Bond>, a: int) {
    exists path :: |path| >= 1 && path[0] == 0 && path[|path| - 1] == a && IsWalk(bonds, path)
  }

  /** The bond graph is connected; with 12 atoms and 11 distinct bonds it is therefore a
      spanning tree of the molecule. */
  lemma BondGraphSpansAllAtoms()
    ensures |MoleculeBonds| == |AtomPositions| - 1
    ensures forall a :: 0 <= a < |AtomPositions| ==> ReachableFromRoot(MoleculeBonds, a)
  {
    forall a | 0 <= a < |AtomPositions|
      ensures ReachableFromRoot(MoleculeBonds, a)
    {
      var path := WalkFromRoot(a);
    }
  }
}
