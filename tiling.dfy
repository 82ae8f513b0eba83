/** `split_geometry` of class `Abyo`. When the sampled region holds more pixels than the
    budget, it is cut into an n-by-n grid of rectangles whose corners are taken from two
    sequences of n+1 evenly spaced break points. */
module Tiling {
  import opened Rows

  /** A geometry handed to the imagery service: either the user's own `lat_lon` string or a
      rectangle given by two corners, in the order the source formats them. */
  datatype Geometry =
    | FromLatLon(latLon: string)
    | Rect(a1: real, b1: real, a2: real, b2: real)

  /** The two corners of the sampled region: `sample_lon_lat`, each corner a pair
      (first coordinate, second coordinate). */
  datatype Corners = Corners(first0: real, second0: real, first1: real, second1: real)

  /** Ceiling division on naturals (`math.ceil(p / m)`). */
  function CeilDiv(p: nat, m: nat): (q: nat)
    requires m > 0
    ensures (q - 1) * m < p <= q * m || (p == 0 && q == 0)
  {
    (p + m - 1) / m
  }

  /** `np.linspace(a, b, num = n + 1)`, over exact reals. */
  function Linspace(a: real, b: real, n: nat): (s: seq<real>)
    requires n > 0
    ensures |s| == n + 1
    ensures s[0] == a && s[n] == b
    ensures forall k :: 0 <= k < n ==> s[k + 1] - s[k] == (b - a) / (n as real)
  {
    var step := (b - a) / (n as real);
    seq(n + 1, k requires 0 <= k <= n => if k == n then b else a + (k as real) * step)
  }

  /** Number of tiles along each axis: 1 when the budget is met, otherwise ceil(P / budget). */
  function TilesPerAxis(totalPixels: nat): (n: nat)
    ensures n >= 1
    ensures totalPixels <= MaxTilePixels ==> n == 1
    ensures totalPixels > MaxTilePixels ==> n >= 2 && (n - 1) * MaxTilePixels < totalPixels <= n * MaxTilePixels
  {
    if totalPixels > MaxTilePixels then CeilDiv(totalPixels, MaxTilePixels) else 1
  }

  /** The first break-point sequence. The source names it `latitudes`, but it is built from the
      second coordinate of each corner. */
  function FirstBreaks(c: Corners, n: nat): seq<real>
    requires n > 0
  {
    Linspace(c.second0, c.second1, n)
  }

  /** The second break-point sequence, built from the first coordinate of each corner. */
  function SecondBreaks(c: Corners, n: nat): seq<real>
    requires n > 0
  {
    Linspace(c.first0, c.first1, n)
  }

  /** Tile (i, j): bounded by break points i, i+1 of the first sequence and j, j+1 of the second. */
  function Tile(xs: seq<real>, ys: seq<real>, i: nat, j: nat): Geometry
    requires i + 1 < |xs| && j + 1 < |ys|
  {
    Rect(xs[i], ys[j], xs[i + 1], ys[j + 1])
  }

  /** Row i of the grid: the tiles (i, 0), ..., (i, m-1). */
  function GridRow(xs: seq<real>, ys: seq<real>, i: nat, m: nat): (r: seq<Geometry>)
    requires i + 1 < |xs| && m < |ys|
    ensures |r| == m
    ensures forall j :: 0 <= j < m ==> r[j] == Tile(xs, ys, i, j)
  {
    if m == 0 then [] else GridRow(xs, ys, i, m - 1) + [Tile(xs, ys, i, m - 1)]
  }

  /** The first k rows of the grid, row-major. */
  function Grid(xs: seq<real>, ys: seq<real>, k: nat): (g: seq<Geometry>)
    requires k < |xs| && |ys| > 0
  {
    if k == 0 then [] else Grid(xs, ys, k - 1) + GridRow(xs, ys, k - 1, |ys| - 1)
  }

  /** The first k rows of the grid hold k * m tiles, m the number of tiles per row. */
  lemma {:induction false} GridLength(xs: seq<real>, ys: seq<real>, k: nat)
    requires k < |xs| && |ys| > 0
    ensures |Grid(xs, ys, k)| == k * (|ys| - 1)
  {
    if k > 0 {
      GridLength(xs, ys, k - 1);
      assert (k - 1) * (|ys| - 1) + (|ys| - 1) == k * (|ys| - 1);
    }
  }

  /** The grid is row-major: tile (i, j) sits at position i * m + j. */
  lemma {:induction false} GridAt(xs: seq<real>, ys: seq<real>, k: nat, i: nat, j: nat)
    requires k < |xs| && |ys| > 0
    requires i < k && j < |ys| - 1
    ensures i * (|ys| - 1) + j < |Grid(xs, ys, k)|
    ensures Grid(xs, ys, k)[i * (|ys| - 1) + j] == Tile(xs, ys, i, j)
  {
    var m := |ys| - 1;
    GridLength(xs, ys, k - 1);
    var prev := Grid(xs, ys, k - 1);
    assert Grid(xs, ys, k) == prev + GridRow(xs, ys, k - 1, m);
    if i < k - 1 {
      GridAt(xs, ys, k - 1, i, j);
    } else {
      assert i * m + j == |prev| + j;
    }
  }

  /** g is the n-by-n grid over break points xs and ys in row-major order: tile (i, j) at
      position i * n + j. */
  predicate RowMajor(g: seq<Geometry>, xs: seq<real>, ys: seq<real>, n: nat)
    requires |xs| == n + 1 && |ys| == n + 1
  {
    |g| == n * n &&
    forall i, j :: 0 <= i < n && 0 <= j < n ==> i * n + j < |g| && g[i * n + j] == Tile(xs, ys, i, j)
  }

  /** The full n-by-n grid, stated tile by tile. */
  lemma GridComplete(xs: seq<real>, ys: seq<real>, n: nat)
    requires |xs| == n + 1 && |ys| == n + 1
    ensures RowMajor(Grid(xs, ys, n), xs, ys, n)
  {
    GridLength(xs, ys, n);
    forall i, j | 0 <= i < n && 0 <= j < n
      ensures i * n + j < |Grid(xs, ys, n)| && Grid(xs, ys, n)[i * n + j] == Tile(xs, ys, i, j)
    {
      GridAt(xs, ys, n, i, j);
    }
  }

  /** The geometries `split_geometry` returns: the user's own `lat_lon` when the pixel budget is
      met, otherwise the n-by-n grid over the two break-point sequences. */
  function Split(totalPixels: nat, corners: Corners, latLon: string): (g: seq<Geometry>)
    ensures totalPixels <= MaxTilePixels ==> g == [FromLatLon(latLon)]
    ensures totalPixels > MaxTilePixels ==> |g| == TilesPerAxis(totalPixels) * TilesPerAxis(totalPixels)
  {
    if totalPixels > MaxTilePixels then
      var n := TilesPerAxis(totalPixels);
      GridLength(FirstBreaks(corners, n), SecondBreaks(corners, n), n);
      Grid(FirstBreaks(corners, n), SecondBreaks(corners, n), n)
    else
      [FromLatLon(latLon)]
  }

  /** Exactly one geometry, built from `lat_lon`, when the budget is met; otherwise n * n tiles with
      n = ceil(P / budget), tile (i, j) at position i * n + j (i outer, j inner). */
  lemma SplitShape(totalPixels: nat, corners: Corners, latLon: string)
    ensures totalPixels <= MaxTilePixels ==> Split(totalPixels, corners, latLon) == [FromLatLon(latLon)]
    ensures totalPixels > MaxTilePixels ==>
      TilesPerAxis(totalPixels) >= 2 &&
      RowMajor(Split(totalPixels, corners, latLon),
               FirstBreaks(corners, TilesPerAxis(totalPixels)), SecondBreaks(corners, TilesPerAxis(totalPixels)),
               TilesPerAxis(totalPixels))
  {
    if totalPixels > MaxTilePixels {
      var n := TilesPerAxis(totalPixels);
      GridComplete(FirstBreaks(corners, n), SecondBreaks(corners, n), n);
    }
  }

  /** `split_geometry`: a nested loop appending the tiles row by row. */
  method SplitGeometry(totalPixels: nat, corners: Corners, latLon: string) returns (geometries: seq<Geometry>)
    ensures geometries == Split(totalPixels, corners, latLon)
  {
    if totalPixels > MaxTilePixels {
      var tiles := CeilDiv(totalPixels, MaxTilePixels);
      var latitudes := Linspace(corners.second0, corners.second1, tiles);
      var longitudes := Linspace(corners.first0, corners.first1, tiles);
      geometries := [];
      for i := 0 to tiles
        invariant geometries == Grid(latitudes, longitudes, i)
      {
        for j := 0 to tiles
          invariant geometries == Grid(latitudes, longitudes, i) + GridRow(latitudes, longitudes, i, j)
        {
          geometries := geometries + [Rect(latitudes[i], longitudes[j], latitudes[i + 1], longitudes[j + 1])];
        }
      }
    } else {
      geometries := [FromLatLon(latLon)];
    }
  }

  /** Point (x, y) lies in the closed rectangle of a tile. */
  predicate InRect(g: Geometry, x: real, y: real)
  {
    g.Rect? && g.a1 <= x <= g.a2 && g.b1 <= y <= g.b2
  }

  /** Point (x, y) lies strictly inside the rectangle of a tile. */
  predicate InsideRect(g: Geometry, x: real, y: real)
  {
    g.Rect? && g.a1 < x < g.a2 && g.b1 < y < g.b2
  }

  /** Break points from a lower to a higher corner never decrease. */
  lemma LinspaceMonotone(a: real, b: real, n: nat, i: nat, j: nat)
    requires n > 0 && a <= b && i <= j <= n
    ensures Linspace(a, b, n)[i] <= Linspace(a, b, n)[j]
  {
    var s := Linspace(a, b, n);
    var step := (b - a) / (n as real);
    var d := ((j - i) as real) * step;
    assert step >= 0.0;
    assert d >= 0.0 by {
      MulNonNegative((j - i) as real, step);
    }
    assert (i as real) * step + d == (j as real) * step;
    if j < n {
      assert s[j] == a + (j as real) * step && s[i] == a + (i as real) * step;
    } else if i < n {
      assert (n as real) * step == b - a;
      assert s[i] == a + (i as real) * step;
    }
  }

  lemma MulNonNegative(x: real, y: real)
    requires x >= 0.0 && y >= 0.0
    ensures x * y >= 0.0
  {
  }

  /** Any value between the first and the last of a non-decreasing sequence lies between two
      consecutive elements. */
  lemma {:induction false} Bracket(s: seq<real>, x: real) returns (k: nat)
    requires |s| >= 2
    requires forall p :: 0 <= p < |s| - 1 ==> s[p] <= s[p + 1]
    requires s[0] <= x <= s[|s| - 1]
    ensures k < |s| - 1 && s[k] <= x <= s[k + 1]
  {
    if x <= s[1] || |s| == 2 {
      k := 0;
    } else {
      var k' := Bracket(s[1..], x);
      k := k' + 1;
    }
  }

  /** Coverage: every point of the sampled box (first corner below second) lies in some tile. */
  lemma TilesCover(c: Corners, n: nat, x: real, y: real)
    requires n > 0
    requires c.second0 <= c.second1 && c.first0 <= c.first1
    requires c.second0 <= x <= c.second1 && c.first0 <= y <= c.first1
    ensures exists i, j :: 0 <= i < n && 0 <= j < n && InRect(Tile(FirstBreaks(c, n), SecondBreaks(c, n), i, j), x, y)
  {
    var xs, ys := FirstBreaks(c, n), SecondBreaks(c, n);
    forall p | 0 <= p < n ensures xs[p] <= xs[p + 1] && ys[p] <= ys[p + 1] {
      LinspaceMonotone(c.second0, c.second1, n, p, p + 1);
      LinspaceMonotone(c.first0, c.first1, n, p, p + 1);
    }
    var i := Bracket(xs, x);
    var j := Bracket(ys, y);
    assert InRect(Tile(xs, ys, i, j), x, y);
  }

  /** No overlap: two different tiles share no interior point, only edges. */
  lemma TilesDisjoint(c: Corners, n: nat, i1: nat, j1: nat, i2: nat, j2: nat, x: real, y: real)
    requires n > 0
    requires c.second0 <= c.second1 && c.first0 <= c.first1
    requires i1 < n && j1 < n && i2 < n && j2 < n && (i1, j1) != (i2, j2)
    requires InsideRect(Tile(FirstBreaks(c, n), SecondBreaks(c, n), i1, j1), x, y)
    ensures !InsideRect(Tile(FirstBreaks(c, n), SecondBreaks(c, n), i2, j2), x, y)
  {
    if i1 < i2 {
      LinspaceMonotone(c.second0, c.second1, n, i1 + 1, i2);
    } else if i2 < i1 {
      LinspaceMonotone(c.second0, c.second1, n, i2 + 1, i1);
    } else if j1 < j2 {
      LinspaceMonotone(c.first0, c.first1, n, j1 + 1, j2);
    } else {
      LinspaceMonotone(c.first0, c.first1, n, j2 + 1, j1);
    }
  }
}
