/** The wireframe portrait (archive/portrait/WireframeAnimation.ts): the image is sampled
    on a 10-pixel grid into 3-D points whose depth is the pixel's brightness, grid
    neighbours are joined by edges, and each edge is turned, projected and faded by
    depth.  Edges are kept as pairs of indices into the point list. */
module Wireframe {
  import opened HostMath
  import opened Image
  import opened Grid

  const GridSize: nat := 10
  const MaxDepth: real := 50.0
  const FocalLength: real := 400.0

  // ---------------------------------------------------------------------------
  // Sampling (lines 24-38)

  /** `(r + g + b) / 3 / 255 * 50` for the pixel at byte offset `index`. */
  function Depth(data: seq<byte>, index: nat): (z: real)
    requires index + 2 < |data|
    ensures 0.0 <= z <= MaxDepth
  {
    var brightness := (data[index] as int + data[index + 1] as int + data[index + 2] as int) as real / 3.0;
    brightness / 255.0 * MaxDepth
  }

  /** The point sampled at pixel (x, y). */
  function SamplePoint(data: seq<byte>, width: nat, height: nat, x: nat, y: nat): (p: Vec3)
    requires IsImage(data, width, height) && x < width && y < height
    ensures p.x == x as real && p.y == y as real && 0.0 <= p.z <= MaxDepth
  {
    PixelIndexInRange(x, y, width, height);
    Vec3(x as real, y as real, Depth(data, PixelIndex(x, y, width)))
  }

  /** The first `k` points of the row at pixel height y. */
  function RowPoints(data: seq<byte>, width: nat, height: nat, y: nat, k: nat): (row: seq<Vec3>)
    requires IsImage(data, width, height) && y < height && k <= Cells(width, GridSize)
    ensures |row| == k
  {
    if k == 0 then []
    else
      CellsCount(width, GridSize, k - 1);
      RowPoints(data, width, height, y, k - 1) + [SamplePoint(data, width, height, (k - 1) * GridSize, y)]
  }

  /** The first `m` complete rows, in row-major order. */
  function GridPoints(data: seq<byte>, width: nat, height: nat, m: nat): (grid: seq<Vec3>)
    requires IsImage(data, width, height) && m <= Cells(height, GridSize)
  {
    if m == 0 then []
    else
      CellsCount(height, GridSize, m - 1);
      GridPoints(data, width, height, m - 1) + RowPoints(data, width, height, (m - 1) * GridSize, Cells(width, GridSize))
  }

  lemma {:induction false} RowPointsAt(data: seq<byte>, width: nat, height: nat, y: nat, k: nat)
    requires IsImage(data, width, height) && y < height && k <= Cells(width, GridSize)
    ensures forall c :: 0 <= c < k ==>
      c * GridSize < width && RowPoints(data, width, height, y, k)[c] == SamplePoint(data, width, height, c * GridSize, y)
  {
    if k > 0 {
      RowPointsAt(data, width, height, y, k - 1);
      CellsCount(width, GridSize, k - 1);
    }
  }

  /** The sampled point of grid index i: the pixel (10 * column, 10 * row). */
  function GridSample(data: seq<byte>, width: nat, height: nat, i: nat): (p: Vec3)
    requires IsImage(data, width, height) && i < Cells(height, GridSize) * Cells(width, GridSize)
    ensures var rc := GridPos(i, Cells(width, GridSize));
      rc.0 * GridSize < height && rc.1 * GridSize < width &&
      p == SamplePoint(data, width, height, rc.1 * GridSize, rc.0 * GridSize)
  {
    var rc := GridPos(i, Cells(width, GridSize));
    GridPosInRange(i, Cells(height, GridSize), Cells(width, GridSize));
    CellsCount(height, GridSize, rc.0);
    CellsCount(width, GridSize, rc.1);
    SamplePoint(data, width, height, rc.1 * GridSize, rc.0 * GridSize)
  }

  /** Point c of the row at grid row r is grid index r * Cells(width, GridSize) + c. */
  lemma RowSample(data: seq<byte>, width: nat, height: nat, r: nat, c: nat)
    requires IsImage(data, width, height) && r < Cells(height, GridSize) && c < Cells(width, GridSize)
    ensures r * Cells(width, GridSize) + c < Cells(height, GridSize) * Cells(width, GridSize)
    ensures r * GridSize < height && c * GridSize < width
    ensures GridSample(data, width, height, r * Cells(width, GridSize) + c) ==
      SamplePoint(data, width, height, c * GridSize, r * GridSize)
  {
    RowMajorBelow(r, c, Cells(height, GridSize), Cells(width, GridSize));
    GridPosOf(r, c, Cells(width, GridSize));
    CellsCount(height, GridSize, r);
    CellsCount(width, GridSize, c);
  }

  /** The first m rows hold m * Cells(width, GridSize) points, point i sampled at its grid cell. */
  lemma {:induction false} GridPointsAt(data: seq<byte>, width: nat, height: nat, m: nat)
    requires IsImage(data, width, height) && m <= Cells(height, GridSize)
    ensures |GridPoints(data, width, height, m)| == m * Cells(width, GridSize) <= Cells(height, GridSize) * Cells(width, GridSize)
    ensures forall i :: 0 <= i < |GridPoints(data, width, height, m)| ==>
      GridPoints(data, width, height, m)[i] == GridSample(data, width, height, i)
  {
    MulMonotone(m, Cells(height, GridSize), Cells(width, GridSize));
    if m > 0 {
      GridPointsAt(data, width, height, m - 1);
      AppendRowAt(data, width, height, m);
    }
  }

  /** One more row keeps the grid sampled cell by cell. */
  lemma AppendRowAt(data: seq<byte>, width: nat, height: nat, m: nat)
    requires IsImage(data, width, height) && 0 < m <= Cells(height, GridSize)
    requires |GridPoints(data, width, height, m - 1)| == (m - 1) * Cells(width, GridSize) <= Cells(height, GridSize) * Cells(width, GridSize)
    requires forall i :: 0 <= i < |GridPoints(data, width, height, m - 1)| ==>
      GridPoints(data, width, height, m - 1)[i] == GridSample(data, width, height, i)
    ensures |GridPoints(data, width, height, m)| == m * Cells(width, GridSize) <= Cells(height, GridSize) * Cells(width, GridSize)
    ensures forall i :: 0 <= i < |GridPoints(data, width, height, m)| ==>
      GridPoints(data, width, height, m)[i] == GridSample(data, width, height, i)
  {
    var cols := Cells(width, GridSize);
    CellsCount(height, GridSize, m - 1);
    var y := (m - 1) * GridSize;
    RowPointsAt(data, width, height, y, cols);
    var prev := GridPoints(data, width, height, m - 1);
    var row := RowPoints(data, width, height, y, cols);
    var grid := GridPoints(data, width, height, m);
    assert grid == prev + row;
    assert m * cols == (m - 1) * cols + cols;
    MulMonotone(m, Cells(height, GridSize), cols);
    forall i | 0 <= i < |grid|
      ensures grid[i] == GridSample(data, width, height, i)
    {
      if i < |prev| {
        assert grid[i] == prev[i];
      } else {
        var c := i - |prev|;
        assert grid[i] == row[c];
        RowSample(data, width, height, m - 1, c);
      }
    }
  }

  /** The nested loops of lines 25-38: one point per grid cell, row by row. */
  method SamplePoints(data: seq<byte>, width: nat, height: nat) returns (points: seq<Vec3>)
    requires IsImage(data, width, height)
    ensures points == GridPoints(data, width, height, Cells(height, GridSize))
    ensures |points| == Cells(height, GridSize) * Cells(width, GridSize)
    ensures forall i :: 0 <= i < |points| ==> points[i] == GridSample(data, width, height, i)
  {
    var cols := Cells(width, GridSize);
    points := [];
    var y, row := 0, 0;
    while y < height
      invariant y == row * GridSize && row <= Cells(height, GridSize)
      invariant points == GridPoints(data, width, height, row)
    {
      CellsCount(height, GridSize, row);
      var x, col := 0, 0;
      while x < width
        invariant x == col * GridSize && col <= cols
        invariant points == GridPoints(data, width, height, row) + RowPoints(data, width, height, y, col)
      {
        CellsCount(width, GridSize, col);
        points := points + [SamplePoint(data, width, height, x, y)];
        x, col := x + GridSize, col + 1;
      }
      CellsCount(width, GridSize, col);
      y, row := y + GridSize, row + 1;
    }
    CellsCount(height, GridSize, row);
    GridPointsAt(data, width, height, row);
  }

  // ---------------------------------------------------------------------------
  // Edges (lines 40-52)

  /** An edge from point `start` to point `end`. */
  datatype Edge = Edge(start: nat, end: nat)

  /** The row test of line 46 with `cols` points to a row: `i % cols !== cols - 1`.  For
      cols = 0 the remainder is NaN and the test passes. */
  predicate RowContinues(i: nat, cols: nat) {
    cols == 0 || i % cols != cols - 1
  }

  /** The edges the loop of lines 41-52 emits over `n` points when it takes `cols`
      points to a row: to the next point when it exists and the row continues, and to
      the point `cols` further on when it exists. */
  predicate IsEdge(e: Edge, n: nat, cols: nat) {
    e.end < n &&
    ((e.end == e.start + 1 && RowContinues(e.start, cols)) || e.end == e.start + cols)
  }

  /** What the loop body emits for point i: the row edge (if any), then the column
      edge (if any). */
  function PointEdges(i: nat, n: nat, cols: nat): seq<Edge> {
    (if i + 1 < n && RowContinues(i, cols) then [Edge(i, i + 1)] else []) +
    (if i + cols < n then [Edge(i, i + cols)] else [])
  }

  /** The edges emitted for the points before i. */
  function EdgesBelow(i: nat, n: nat, cols: nat): seq<Edge> {
    if i == 0 then [] else EdgesBelow(i - 1, n, cols) + PointEdges(i - 1, n, cols)
  }

  /** The emitted edges are exactly the `IsEdge` pairs starting before i. */
  lemma {:induction false} EdgesBelowMembers(i: nat, n: nat, cols: nat)
    ensures forall e :: e in EdgesBelow(i, n, cols) <==> IsEdge(e, n, cols) && e.start < i
  {
    if i > 0 {
      EdgesBelowMembers(i - 1, n, cols);
      var pe := PointEdges(i - 1, n, cols);
      assert forall e :: e in pe <==> IsEdge(e, n, cols) && e.start == i - 1;
    }
  }

  /** Edges come out by start point, and a point's row edge before its column edge. */
  lemma {:induction false} EdgesBelowOrdered(i: nat, n: nat, cols: nat)
    ensures forall a :: 0 <= a < |EdgesBelow(i, n, cols)| ==> EdgesBelow(i, n, cols)[a].start < i
    ensures forall a, b :: 0 <= a < b < |EdgesBelow(i, n, cols)| ==>
      EdgesBelow(i, n, cols)[a].start <= EdgesBelow(i, n, cols)[b].start
    ensures forall a, b :: (0 <= a < b < |EdgesBelow(i, n, cols)| &&
      EdgesBelow(i, n, cols)[a].start == EdgesBelow(i, n, cols)[b].start) ==>
      EdgesBelow(i, n, cols)[a].end == EdgesBelow(i, n, cols)[a].start + 1 &&
      EdgesBelow(i, n, cols)[b].end == EdgesBelow(i, n, cols)[b].start + cols
  {
    if i > 0 {
      EdgesBelowOrdered(i - 1, n, cols);
      var prev := EdgesBelow(i - 1, n, cols);
      var pe := PointEdges(i - 1, n, cols);
      assert forall a :: 0 <= a < |pe| ==> pe[a].start == i - 1;
      assert |pe| == 2 ==> pe[0].end == pe[0].start + 1 && pe[1].end == pe[1].start + cols;
    }
  }

  /** The edge loop of lines 41-52. */
  method BuildEdges(n: nat, cols: nat) returns (edges: seq<Edge>)
    ensures edges == EdgesBelow(n, n, cols)
  {
    edges := [];
    var i := 0;
    while i < n
      invariant 0 <= i <= n
      invariant edges == EdgesBelow(i, n, cols)
    {
      ghost var before := edges;
      if i + 1 < n && RowContinues(i, cols) {
        edges := edges + [Edge(i, i + 1)];
      }
      if i + cols < n {
        edges := edges + [Edge(i, i + cols)];
      }
      assert edges == before + PointEdges(i, n, cols);
      i := i + 1;
    }
  }

  /** Grid neighbours: the next column of the same row, or the same column of the next
      row. */
  predicate Neighbours(e: Edge, cols: nat)
    requires cols > 0
  {
    var a, b := GridPos(e.start, cols), GridPos(e.end, cols);
    (b.0 == a.0 && b.1 == a.1 + 1) || (b.1 == a.1 && b.0 == a.0 + 1)
  }

  /** With the row length that the sampling loop actually produces, the edges are
      exactly the pairs of grid neighbours. */
  lemma CorrectedEdgesJoinNeighbours(width: nat, height: nat, e: Edge)
    requires width > 0
    ensures IsEdge(e, Cells(height, GridSize) * Cells(width, GridSize), Cells(width, GridSize)) <==>
      e.end < Cells(height, GridSize) * Cells(width, GridSize) && Neighbours(e, Cells(width, GridSize))
  {
    var cols, n := Cells(width, GridSize), Cells(height, GridSize) * Cells(width, GridSize);
    var a := GridPos(e.start, cols);
    if e.end < n {
      var b := GridPos(e.end, cols);
      if e.end == e.start + 1 && RowContinues(e.start, cols) {
        GridPosOf(a.0, a.1 + 1, cols);
      }
      if e.end == e.start + cols {
        assert e.end == (a.0 + 1) * cols + a.1;
        GridPosOf(a.0 + 1, a.1, cols);
      }
      if b.0 == a.0 && b.1 == a.1 + 1 {
        assert e.end == e.start + 1;
      }
      if b.1 == a.1 && b.0 == a.0 + 1 {
        assert e.end == e.start + cols;
      }
    }
  }

  /** When the width is a multiple of 10 the row length of line 44 is the number of
      points per row, so the edges as written are the neighbour edges. */
  lemma AlignedWidthRowLength(width: nat)
    requires width % GridSize == 0
    ensures width / GridSize == Cells(width, GridSize)
  {
  }

  /** As written the edge loop takes floor(width / 10) points to a row while the
      sampling loop lays ceil(width / 10) on each: on a 25 x 20 image (three points a
      row, two rows) it joins the last point of the first row, at pixel (20, 0), to the
      first point of the second row, at pixel (0, 10). */
  lemma RowWrapAtWidth25()
    ensures Cells(25, GridSize) == 3 && Cells(20, GridSize) == 2 && 25 / GridSize == 2
    ensures IsEdge(Edge(2, 3), Cells(20, GridSize) * Cells(25, GridSize), 25 / GridSize)
    ensures GridPos(2, Cells(25, GridSize)) == (0, 2) && GridPos(3, Cells(25, GridSize)) == (1, 0)
    ensures !Neighbours(Edge(2, 3), Cells(25, GridSize))
  {
    assert 2 % 2 == 0;
  }

  /** drawWireframePortrait's points and edges as written (row length floor(width / 10)). */
  method BuildMesh(data: seq<byte>, width: nat, height: nat) returns (points: seq<Vec3>, edges: seq<Edge>)
    requires IsImage(data, width, height)
    ensures |points| == Cells(height, GridSize) * Cells(width, GridSize)
    ensures forall e :: e in edges <==> IsEdge(e, |points|, width / GridSize)
  {
    points := SamplePoints(data, width, height);
    edges := BuildEdges(|points|, width / GridSize);
    EdgesBelowMembers(|points|, |points|, width / GridSize);
  }

  /** The mesh with the row length the sampling produces: every edge joins grid
      neighbours and every pair of neighbours is joined. */
  method BuildMeshCorrected(data: seq<byte>, width: nat, height: nat) returns (points: seq<Vec3>, edges: seq<Edge>)
    requires IsImage(data, width, height) && width > 0
    ensures |points| == Cells(height, GridSize) * Cells(width, GridSize)
    ensures forall e :: e in edges <==> e.end < |points| && Neighbours(e, Cells(width, GridSize))
  {
    points := SamplePoints(data, width, height);
    edges := BuildEdges(|points|, Cells(width, GridSize));
    EdgesBelowMembers(|points|, |points|, Cells(width, GridSize));
    forall e ensures e in edges <==> e.end < |points| && Neighbours(e, Cells(width, GridSize)) {
      CorrectedEdgesJoinNeighbours(width, height, e);
    }
  }

  // ---------------------------------------------------------------------------
  // Rotation, projection and fading (lines 54-100)

  /** cos^2 + sin^2 = 1 at angle t. */
  predicate OnUnitCircle(host: Host, t: real) {
    host.cos(t) * host.cos(t) + host.sin(t) * host.sin(t) == 1.0
  }

  /** rotateY: a turn in the x-z plane. */
  function RotateY(p: Vec3, angle: real, host: Host): (q: Vec3)
    ensures q.y == p.y
  {
    var xz := Rotate(p.x, p.z, host.cos(angle), host.sin(angle));
    Vec3(xz.0, p.y, xz.1)
  }

  /** rotateX: a turn in the y-z plane. */
  function RotateX(p: Vec3, angle: real, host: Host): (q: Vec3)
    ensures q.x == p.x
  {
    var yz := Rotate(p.y, p.z, host.cos(angle), host.sin(angle));
    Vec3(p.x, yz.0, yz.1)
  }

  lemma RotateYKeepsRadius(p: Vec3, angle: real, host: Host)
    requires OnUnitCircle(host, angle)
    ensures var q := RotateY(p, angle, host); q.x * q.x + q.z * q.z == p.x * p.x + p.z * p.z
  {
    RotateScalesNorm(p.x, p.z, host.cos(angle), host.sin(angle));
  }

  lemma RotateXKeepsRadius(p: Vec3, angle: real, host: Host)
    requires OnUnitCircle(host, angle)
    ensures var q := RotateX(p, angle, host); q.y * q.y + q.z * q.z == p.y * p.y + p.z * p.z
  {
    RotateScalesNorm(p.y, p.z, host.cos(angle), host.sin(angle));
  }

  /** Lines 76-81: tilt by sin(t / 1000) / 5 about x, then turn by t / 1000 about y. */
  function Turn(p: Vec3, time: real, host: Host): Vec3 {
    RotateY(RotateX(p, host.sin(time * 0.001) * 0.2, host), time * 0.001, host)
  }

  /** The turn is rigid: it keeps every point's distance from the origin. */
  lemma TurnKeepsDistance(p: Vec3, time: real, host: Host)
    requires OnUnitCircle(host, host.sin(time * 0.001) * 0.2) && OnUnitCircle(host, time * 0.001)
    ensures var q := Turn(p, time, host); q.x * q.x + q.y * q.y + q.z * q.z == p.x * p.x + p.y * p.y + p.z * p.z
  {
    var tilted := RotateX(p, host.sin(time * 0.001) * 0.2, host);
    RotateXKeepsRadius(p, host.sin(time * 0.001) * 0.2, host);
    RotateYKeepsRadius(tilted, time * 0.001, host);
  }

  datatype Option<T> = None | Some(value: T)

  /** Lines 84-96: perspective with focal length 400 about the canvas centre.  A point
      on the camera plane (z = -400) has no image (the source divides by zero there). */
  function Project(p: Vec3, width: nat, height: nat): (r: Option<(real, real)>)
    ensures r.Some? <==> p.z + FocalLength != 0.0
    ensures r.Some? ==>
      (r.value.0 - width as real / 2.0) * (p.z + FocalLength) == p.x * FocalLength &&
      (r.value.1 - height as real / 2.0) * (p.z + FocalLength) == p.y * FocalLength
  {
    var depth := p.z + FocalLength;
    if depth == 0.0 then None
    else
      var k := FocalLength / depth;
      Some((p.x * k + width as real / 2.0, p.y * k + height as real / 2.0))
  }

  /** Line 100: the stroke opacity of an edge whose turned ends have depths z1 and z2. */
  function EdgeOpacity(z1: real, z2: real): (o: real)
    ensures 0.1 <= o <= 1.0
  {
    var depth := ((z1 + FocalLength) + (z2 + FocalLength)) / 2.0;
    Min(1.0, Max(0.1, 1.0 - (depth - FocalLength) / 400.0))
  }

  /** One edge as the forEach of lines 78-100 strokes it. */
  datatype Stroke = Stroke(from: (real, real), to: (real, real), opacity: real)

  /** Lines 78-100 for the edge `e` of the mesh `points`: both ends turned, projected,
      and the opacity taken from their turned depths; no stroke when an end lies on
      the camera plane. */
  function EdgeStroke(points: seq<Vec3>, e: Edge, time: real, host: Host, width: nat, height: nat): (r: Option<Stroke>)
    requires e.start < |points| && e.end < |points|
    ensures var a, b := Turn(points[e.start], time, host), Turn(points[e.end], time, host);
      (r.Some? <==> a.z + FocalLength != 0.0 && b.z + FocalLength != 0.0) &&
      (r.Some? ==>
        Project(a, width, height) == Some(r.value.from) && Project(b, width, height) == Some(r.value.to) &&
        0.1 <= r.value.opacity <= 1.0 &&
        (0.0 <= a.z + b.z <= 720.0 ==> r.value.opacity == 1.0 - (a.z + b.z) / 800.0))
  {
    var a, b := Turn(points[e.start], time, host), Turn(points[e.end], time, host);
    match (Project(a, width, height), Project(b, width, height))
    case (Some(from), Some(to)) =>
      EdgeOpacityByDepth(a.z, b.z, a.z, b.z);
      Some(Stroke(from, to, EdgeOpacity(a.z, b.z)))
    case _ => None
  }

  /** Farther edges are never brighter, and between the clamps the opacity falls by
      1/400 per unit of mean depth. */
  lemma EdgeOpacityByDepth(z1: real, z2: real, w1: real, w2: real)
    ensures z1 + z2 <= w1 + w2 ==> EdgeOpacity(w1, w2) <= EdgeOpacity(z1, z2)
    ensures 0.0 <= z1 + z2 <= 720.0 ==> EdgeOpacity(z1, z2) == 1.0 - (z1 + z2) / 800.0
  {
  }
}
