/** The geometric portrait (archive/portrait/GeometricAnimation.ts): the canvas is cut
    into 12-pixel cells, each cell gets one jittered triangle, and each triangle is
    coloured with the average of the pixels in its bounding box. */
module Geometric {
  import opened HostMath
  import opened Image
  import opened Grid

  const CellSize: nat := 12

  datatype Point = Point(x: real, y: real)

  /** `'rgba(0,0,0,0)'` or `rgb(r,g,b)`. */
  datatype Color = Transparent | Rgb(r: int, g: int, b: int)

  datatype Triangle = Triangle(points: seq<Point>, color: Color)

  // ---------------------------------------------------------------------------
  // The bounding box (lines 57-60)

  /** `Math.min(...s)` of a non-empty list. */
  function MinOf(s: seq<real>): (m: real)
    requires |s| > 0
    ensures m in s && forall v :: v in s ==> m <= v
  {
    if |s| == 1 then s[0]
    else
      var rest := MinOf(s[1..]);
      assert forall v :: v in s ==> v == s[0] || v in s[1..];
      if s[0] <= rest then s[0] else rest
  }

  /** `Math.max(...s)` of a non-empty list. */
  function MaxOf(s: seq<real>): (m: real)
    requires |s| > 0
    ensures m in s && forall v :: v in s ==> v <= m
  {
    if |s| == 1 then s[0]
    else
      var rest := MaxOf(s[1..]);
      assert forall v :: v in s ==> v == s[0] || v in s[1..];
      if s[0] >= rest then s[0] else rest
  }

  function Xs(pts: seq<Point>): (xs: seq<real>)
    ensures |xs| == |pts| && forall i :: 0 <= i < |pts| ==> xs[i] == pts[i].x
  {
    seq(|pts|, i requires 0 <= i < |pts| => pts[i].x)
  }

  function Ys(pts: seq<Point>): (ys: seq<real>)
    ensures |ys| == |pts| && forall i :: 0 <= i < |pts| ==> ys[i] == pts[i].y
  {
    seq(|pts|, i requires 0 <= i < |pts| => pts[i].y)
  }

  /** How many of lo, lo + 1, lo + 2, ... are at most hi: the trips of a loop that
      starts at lo and steps by 1 while `<= hi`. */
  function Steps(lo: real, hi: real): nat {
    if hi < lo then 0 else (hi - lo).Floor + 1
  }

  lemma StepsCount(lo: real, hi: real, k: nat)
    ensures k < Steps(lo, hi) <==> lo + k as real <= hi
  {
  }

  // ---------------------------------------------------------------------------
  // Accumulating the samples (lines 62-72)

  /** The running sums of the three channels and the number of samples counted. */
  datatype Sums = Sums(r: int, g: int, b: int, count: nat)

  predicate InCanvas(x: real, y: real, width: nat, height: nat) {
    0.0 <= x < width as real && 0.0 <= y < height as real
  }

  /** Sample (a, b) of the box whose top-left corner is (x0, y0) lies in the canvas. */
  predicate Hits(x0: real, y0: real, a: nat, b: nat, width: nat, height: nat) {
    InCanvas(x0 + a as real, y0 + b as real, width, height)
  }

  /** A sample inside the canvas reads four bytes inside the image. */
  lemma SampleIndexInRange(x: real, y: real, width: nat, height: nat)
    requires InCanvas(x, y, width, height)
    ensures 0 <= x.Floor < width && 0 <= y.Floor < height
    ensures 0 <= PixelIndex(x.Floor, y.Floor, width) && PixelIndex(x.Floor, y.Floor, width) + 3 < 4 * width * height
  {
    PixelIndexInRange(x.Floor, y.Floor, width, height);
  }

  /** The red, green and blue bytes of the pixel under the sample at (x, y). */
  function PixelAt(data: seq<byte>, width: nat, height: nat, x: real, y: real): (rgb: (byte, byte, byte))
    requires IsImage(data, width, height) && InCanvas(x, y, width, height)
  {
    SampleIndexInRange(x, y, width, height);
    var i := PixelIndex(x.Floor, y.Floor, width);
    (data[i], data[i + 1], data[i + 2])
  }

  /** The body of the inner loop for the sample at (x, y): skipped outside the canvas,
      otherwise the pixel at (floor x, floor y) is added and counted. */
  function AddSample(acc: Sums, data: seq<byte>, width: nat, height: nat, x: real, y: real): Sums
    requires IsImage(data, width, height)
  {
    if x < 0.0 || x >= width as real || y < 0.0 || y >= height as real then acc
    else
      var rgb := PixelAt(data, width, height, x, y);
      Sums(acc.r + rgb.0 as int, acc.g + rgb.1 as int, acc.b + rgb.2 as int, acc.count + 1)
  }

  /** `acc` after the first k samples of the row at height y. */
  function RowSums(acc: Sums, data: seq<byte>, width: nat, height: nat, minX: real, y: real, k: nat): Sums
    requires IsImage(data, width, height)
  {
    if k == 0 then acc
    else AddSample(RowSums(acc, data, width, height, minX, y, k - 1), data, width, height, minX + (k - 1) as real, y)
  }

  /** The sums after the first m rows of a box `nx` samples wide. */
  function BoxSums(data: seq<byte>, width: nat, height: nat, minX: real, nx: nat, minY: real, m: nat): Sums
    requires IsImage(data, width, height)
  {
    if m == 0 then Sums(0, 0, 0, 0)
    else RowSums(BoxSums(data, width, height, minX, nx, minY, m - 1), data, width, height, minX, minY + (m - 1) as real, nx)
  }

  /** Each channel sum lies between 0 and 255 per counted sample. */
  predicate ChannelsBounded(s: Sums) {
    0 <= s.r <= 255 * s.count && 0 <= s.g <= 255 * s.count && 0 <= s.b <= 255 * s.count
  }

  /** A row adds to the count exactly when one of its samples is in the canvas, and
      keeps the channel sums bounded. */
  lemma {:induction false} RowSumsFacts(acc: Sums, data: seq<byte>, width: nat, height: nat, minX: real, y: real, k: nat)
    requires IsImage(data, width, height)
    ensures var s := RowSums(acc, data, width, height, minX, y, k);
      s.count >= acc.count &&
      (s.count == acc.count <==> forall a :: 0 <= a < k ==> !Hits(minX, y, a, 0, width, height)) &&
      (ChannelsBounded(acc) ==> ChannelsBounded(s))
  {
    if k > 0 {
      RowSumsFacts(acc, data, width, height, minX, y, k - 1);
      var prev := RowSums(acc, data, width, height, minX, y, k - 1);
      var s := RowSums(acc, data, width, height, minX, y, k);
      assert Hits(minX, y, k - 1, 0, width, height) <==> InCanvas(minX + (k - 1) as real, y, width, height);
      assert s.count == acc.count ==> prev.count == acc.count && !Hits(minX, y, k - 1, 0, width, height);
    }
  }

  /** Over a whole box: nothing is counted exactly when no sample is in the canvas, and
      the sums stay bounded. */
  lemma {:induction false} BoxSumsFacts(data: seq<byte>, width: nat, height: nat, minX: real, nx: nat, minY: real, m: nat)
    requires IsImage(data, width, height)
    ensures var s := BoxSums(data, width, height, minX, nx, minY, m);
      ChannelsBounded(s) &&
      (s.count == 0 <==> forall b, a :: 0 <= b < m && 0 <= a < nx ==> !Hits(minX, minY, a, b, width, height))
  {
    if m > 0 {
      BoxSumsFacts(data, width, height, minX, nx, minY, m - 1);
      var prev := BoxSums(data, width, height, minX, nx, minY, m - 1);
      var y := minY + (m - 1) as real;
      RowSumsFacts(prev, data, width, height, minX, y, nx);
      assert forall a :: Hits(minX, y, a, 0, width, height) == Hits(minX, minY, a, m - 1, width, height);
      var s := BoxSums(data, width, height, minX, nx, minY, m);
      assert s == RowSums(prev, data, width, height, minX, y, nx);
      if s.count == 0 {
        assert prev.count == 0;
        forall b, a | 0 <= b < m && 0 <= a < nx
          ensures !Hits(minX, minY, a, b, width, height)
        {
          if b == m - 1 {
            assert !Hits(minX, y, a, 0, width, height);
          }
        }
      } else if prev.count == 0 {
        assert s.count != prev.count;
        var a :| 0 <= a < nx && Hits(minX, y, a, 0, width, height);
        assert Hits(minX, minY, a, m - 1, width, height);
      }
    }
  }

  /** Lines 74-80: no samples gives the transparent colour, otherwise each channel is
      the floored mean. */
  function Average(s: Sums): Color {
    if s.count == 0 then Transparent else Rgb(s.r / s.count, s.g / s.count, s.b / s.count)
  }

  lemma FlooredMeanInRange(sum: int, count: nat)
    requires count > 0 && 0 <= sum <= 255 * count
    ensures 0 <= sum / count <= 255
  {
    var q := sum / count;
    assert q * count <= sum;
    assert (255 - q) * count == 255 * count - q * count;
    assert (256 - q) * count > 0;
    PositiveFactor(256 - q, count);
  }

  /** The colour getAverageColor returns for the vertices `pts`.  With no vertices
      Math.min and Math.max give +Infinity and -Infinity and neither loop runs. */
  function AverageColorOf(data: seq<byte>, width: nat, height: nat, pts: seq<Point>): Color
    requires IsImage(data, width, height)
  {
    if |pts| == 0 then Transparent
    else
      var minX, maxX := MinOf(Xs(pts)), MaxOf(Xs(pts));
      var minY, maxY := MinOf(Ys(pts)), MaxOf(Ys(pts));
      Average(BoxSums(data, width, height, minX, Steps(minX, maxX), minY, Steps(minY, maxY)))
  }

  /** The colour is transparent exactly when no sample of the bounding box lies in the
      canvas; otherwise every channel is a byte. */
  lemma AverageColorSpec(data: seq<byte>, width: nat, height: nat, pts: seq<Point>)
    requires IsImage(data, width, height) && |pts| > 0
    ensures var minX, minY := MinOf(Xs(pts)), MinOf(Ys(pts));
      var nx, ny := Steps(minX, MaxOf(Xs(pts))), Steps(minY, MaxOf(Ys(pts)));
      (AverageColorOf(data, width, height, pts) == Transparent <==>
         forall b, a :: 0 <= b < ny && 0 <= a < nx ==> !Hits(minX, minY, a, b, width, height))
    ensures var c := AverageColorOf(data, width, height, pts);
      c.Rgb? ==> 0 <= c.r <= 255 && 0 <= c.g <= 255 && 0 <= c.b <= 255
  {
    var minX, minY := MinOf(Xs(pts)), MinOf(Ys(pts));
    var nx, ny := Steps(minX, MaxOf(Xs(pts))), Steps(minY, MaxOf(Ys(pts)));
    BoxSumsFacts(data, width, height, minX, nx, minY, ny);
    var s := BoxSums(data, width, height, minX, nx, minY, ny);
    if s.count > 0 {
      FlooredMeanInRange(s.r, s.count);
      FlooredMeanInRange(s.g, s.count);
      FlooredMeanInRange(s.b, s.count);
    }
  }

  /** getAverageColor (lines 55-81): the two nested loops over the bounding box. */
  method GetAverageColor(data: seq<byte>, width: nat, height: nat, pts: seq<Point>) returns (color: Color)
    requires IsImage(data, width, height)
    ensures color == AverageColorOf(data, width, height, pts)
  {
    if |pts| == 0 {
      return Transparent;
    }
    var r: int, g: int, b: int, count: nat := 0, 0, 0, 0;
    var minX, maxX := MinOf(Xs(pts)), MaxOf(Xs(pts));
    var minY, maxY := MinOf(Ys(pts)), MaxOf(Ys(pts));
    var nx := Steps(minX, maxX);
    var y, row := minY, 0;
    while y <= maxY
      invariant y == minY + row as real && row <= Steps(minY, maxY)
      invariant Sums(r, g, b, count) == BoxSums(data, width, height, minX, nx, minY, row)
      decreases Steps(minY, maxY) - row
    {
      StepsCount(minY, maxY, row);
      r, g, b, count := SampleRow(data, width, height, minX, maxX, y, r, g, b, count);
      y, row := y + 1.0, row + 1;
    }
    StepsCount(minY, maxY, row);
    if count == 0 {
      return Transparent;
    }
    color := Rgb(r / count, g / count, b / count);
  }

  /** The inner loop of getAverageColor (lines 61-72): one row of samples at height `y`,
      added to the running sums. */
  method SampleRow(data: seq<byte>, width: nat, height: nat, minX: real, maxX: real, y: real,
                   r0: int, g0: int, b0: int, count0: nat)
      returns (r: int, g: int, b: int, count: nat)
    requires IsImage(data, width, height)
    ensures Sums(r, g, b, count) ==
      RowSums(Sums(r0, g0, b0, count0), data, width, height, minX, y, Steps(minX, maxX))
  {
    r, g, b, count := r0, g0, b0, count0;
    var nx := Steps(minX, maxX);
    var x, col := minX, 0;
    while x <= maxX
      invariant x == minX + col as real && col <= nx
      invariant Sums(r, g, b, count) == RowSums(Sums(r0, g0, b0, count0), data, width, height, minX, y, col)
      decreases nx - col
    {
      StepsCount(minX, maxX, col);
      if !(x < 0.0 || x >= width as real || y < 0.0 || y >= height as real) {
        SampleIndexInRange(x, y, width, height);
        var index := (y.Floor * width + x.Floor) * 4;
        r := r + data[index] as int;
        g := g + data[index + 1] as int;
        b := b + data[index + 2] as int;
        count := count + 1;
      }
      x, col := x + 1.0, col + 1;
    }
    StepsCount(minX, maxX, col);
  }

  // ---------------------------------------------------------------------------
  // The triangle mesh (lines 22-37)

  /** Line 25: `Math.sin(time * 0.001 + x * 0.1 + y * 0.1) * 2`. */
  function Jitter(time: real, x: nat, y: nat, host: Host): real {
    host.sin(time * 0.001 + x as real * 0.1 + y as real * 0.1) * 2.0
  }

  /** The triangle of the cell at (x, y), shifted diagonally by `j`. */
  function CellPoints(x: nat, y: nat, j: real): seq<Point> {
    [Point(x as real + j, y as real + j),
     Point(x as real + CellSize as real + j, y as real + j),
     Point(x as real + CellSize as real / 2.0 + j, y as real + CellSize as real + j)]
  }

  /** The colouring of the mesh: getAverageColor over the image. */
  function Painter(data: seq<byte>, width: nat, height: nat): (paint: seq<Point> -> Color)
    requires IsImage(data, width, height)
  {
    pts => AverageColorOf(data, width, height, pts)
  }

  /** The triangle pushed for the cell at (x, y), coloured by `paint`. */
  function CellTriangle(paint: seq<Point> -> Color, time: real, host: Host, x: nat, y: nat): Triangle
  {
    var pts := CellPoints(x, y, Jitter(time, x, y, host));
    Triangle(pts, paint(pts))
  }

  /** Every cell triangle is the 12-wide, 12-high triangle on the cell's top edge, moved
      along the diagonal by one jitter of at most 2 pixels shared by its three corners. */
  lemma CellTriangleShape(paint: seq<Point> -> Color, time: real, host: Host, x: nat, y: nat)
    requires SinCosBounded(host)
    ensures var t := CellTriangle(paint, time, host, x, y);
      var j := t.points[0].x - x as real;
      |t.points| == 3 && -2.0 <= j <= 2.0 &&
      t.points[0] == Point(x as real + j, y as real + j) &&
      t.points[1] == Point(x as real + 12.0 + j, y as real + j) &&
      t.points[2] == Point(x as real + 6.0 + j, y as real + 12.0 + j) &&
      t.color == paint(t.points)
  {
    var s := host.sin(time * 0.001 + x as real * 0.1 + y as real * 0.1);
    assert -1.0 <= s <= 1.0;
  }

  /** The first k triangles of the row at pixel height y. */
  function MeshRow(paint: seq<Point> -> Color, time: real, host: Host, y: nat, k: nat): (row: seq<Triangle>)
    ensures |row| == k
  {
    if k == 0 then []
    else MeshRow(paint, time, host, y, k - 1) + [CellTriangle(paint, time, host, (k - 1) * CellSize, y)]
  }

  /** The first m complete rows of triangles. */
  function Mesh(paint: seq<Point> -> Color, width: nat, time: real, host: Host, m: nat): seq<Triangle>
  {
    if m == 0 then []
    else Mesh(paint, width, time, host, m - 1) +
         MeshRow(paint, time, host, (m - 1) * CellSize, Cells(width, CellSize))
  }

  lemma {:induction false} MeshRowAt(paint: seq<Point> -> Color, time: real, host: Host, y: nat, k: nat)
    ensures forall c :: 0 <= c < k ==>
      MeshRow(paint, time, host, y, k)[c] == CellTriangle(paint, time, host, c * CellSize, y)
  {
    if k > 0 {
      MeshRowAt(paint, time, host, y, k - 1);
    }
  }

  /** The triangle of grid index i: the cell at (12 * column, 12 * row). */
  function GridTriangle(paint: seq<Point> -> Color, width: nat, time: real, host: Host, i: nat): Triangle
    requires Cells(width, CellSize) > 0
  {
    var rc := GridPos(i, Cells(width, CellSize));
    CellTriangle(paint, time, host, rc.1 * CellSize, rc.0 * CellSize)
  }

  /** m rows hold m * Cells(width) triangles, triangle i drawn for its grid cell. */
  lemma {:induction false} MeshAt(paint: seq<Point> -> Color, width: nat, time: real, host: Host, m: nat)
    ensures |Mesh(paint, width, time, host, m)| == m * Cells(width, CellSize)
    ensures forall i :: 0 <= i < |Mesh(paint, width, time, host, m)| ==>
      Cells(width, CellSize) > 0 &&
      Mesh(paint, width, time, host, m)[i] == GridTriangle(paint, width, time, host, i)
  {
    if m > 0 {
      MeshAt(paint, width, time, host, m - 1);
      AppendMeshRow(paint, width, time, host, m);
    }
  }

  lemma AppendMeshRow(paint: seq<Point> -> Color, width: nat, time: real, host: Host, m: nat)
    requires m > 0
    requires |Mesh(paint, width, time, host, m - 1)| == (m - 1) * Cells(width, CellSize)
    requires forall i :: 0 <= i < |Mesh(paint, width, time, host, m - 1)| ==>
      Cells(width, CellSize) > 0 &&
      Mesh(paint, width, time, host, m - 1)[i] == GridTriangle(paint, width, time, host, i)
    ensures |Mesh(paint, width, time, host, m)| == m * Cells(width, CellSize)
    ensures forall i :: 0 <= i < |Mesh(paint, width, time, host, m)| ==>
      Cells(width, CellSize) > 0 &&
      Mesh(paint, width, time, host, m)[i] == GridTriangle(paint, width, time, host, i)
  {
    var cols := Cells(width, CellSize);
    var y := (m - 1) * CellSize;
    MeshRowAt(paint, time, host, y, cols);
    var prev := Mesh(paint, width, time, host, m - 1);
    var row := MeshRow(paint, time, host, y, cols);
    var mesh := Mesh(paint, width, time, host, m);
    assert mesh == prev + row;
    assert m * cols == (m - 1) * cols + cols;
    forall i | 0 <= i < |mesh|
      ensures cols > 0 && mesh[i] == GridTriangle(paint, width, time, host, i)
    {
      if i < |prev| {
        assert mesh[i] == prev[i];
      } else {
        var c := i - |prev|;
        assert mesh[i] == row[c];
        GridPosOf(m - 1, c, cols);
      }
    }
  }

  /** One more row of cells extends the mesh by that row. */
  lemma MeshStep(paint: seq<Point> -> Color, width: nat, time: real, host: Host, m: nat)
    ensures Mesh(paint, width, time, host, m + 1) ==
            Mesh(paint, width, time, host, m) + MeshRow(paint, time, host, m * CellSize, Cells(width, CellSize))
  {
  }

  /** The nested loops of lines 23-37: one triangle per 12-pixel cell, row by row. */
  method Triangulate(data: seq<byte>, width: nat, height: nat, time: real, host: Host) returns (triangles: seq<Triangle>)
    requires IsImage(data, width, height)
    ensures triangles == Mesh(Painter(data, width, height), width, time, host, Cells(height, CellSize))
  {
    var paint := Painter(data, width, height);
    triangles := [];
    var y, row := 0, 0;
    while y < height
      invariant y == row * CellSize && row <= Cells(height, CellSize)
      invariant triangles == Mesh(paint, width, time, host, row)
    {
      CellsCount(height, CellSize, row);
      var line := TriangulateRow(data, width, height, time, host, y);
      MeshStep(paint, width, time, host, row);
      triangles := triangles + line;
      y, row := y + CellSize, row + 1;
    }
    CellsCount(height, CellSize, row);
  }

  /** The inner loop of lines 25-36: the triangles of the row at pixel height y. */
  method TriangulateRow(data: seq<byte>, width: nat, height: nat, time: real, host: Host, y: nat) returns (line: seq<Triangle>)
    requires IsImage(data, width, height)
    ensures line == MeshRow(Painter(data, width, height), time, host, y, Cells(width, CellSize))
  {
    var paint := Painter(data, width, height);
    line := [];
    var x, col := 0, 0;
    while x < width
      invariant x == col * CellSize && col <= Cells(width, CellSize)
      invariant line == MeshRow(paint, time, host, y, col)
    {
      CellsCount(width, CellSize, col);
      var points := CellPoints(x, y, Jitter(time, x, y, host));
      var color := GetAverageColor(data, width, height, points);
      assert color == paint(points);
      line := line + [Triangle(points, color)];
      x, col := x + CellSize, col + 1;
    }
    CellsCount(width, CellSize, col);
  }
}
