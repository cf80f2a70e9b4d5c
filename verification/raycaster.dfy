/**
 * The first-person raycasting engine: a 16x16 occupancy map, a collision
 * lookup on world coordinates, a stepped ray march per screen column, the
 * fish-eye correction, projection and fog shading that turn a hit distance
 * into a centred vertical strip, and the player-movement integrator.
 *
 * World coordinates are reals.  The trigonometric functions of the host
 * (math.cos, math.sin) are parameters of the members that use them.
 */
module Raycaster {

  // ---------------------------------------------------------------------
  // Configuration
  // ---------------------------------------------------------------------

  const Width: int := 640
  const Height: int := 400
  const MapSize: int := 16
  const CellSize: int := 64

  /** The decimal expansion of the double `math.pi`. */
  const Pi: real := 3.141592653589793
  const Fov: real := Pi / 3.0
  const HalfFov: real := Fov / 2.0
  const NumRays: int := 120
  const DeltaAngle: real := Fov / NumRays as real
  /** Width of one strip on screen: `WIDTH // NUM_RAYS`. */
  const Scale: int := Width / NumRays

  /** Ray marching: step length and depth cap. */
  const StepSize: int := 2
  const MaxDepth: int := 800

  /** Projection constant and the darkest allowed shade. */
  const ProjectionConstant: int := 350
  const MinShade: int := 30

  /**
   * Derived constants, written as literals so that the arithmetic that uses
   * them stays linear: the side of the mapped world, MapSize * CellSize, and
   * the numerator of the projection, CellSize * ProjectionConstant.
   */
  const WorldExtent: real := 1024.0
  const WallScale: real := 22400.0

  lemma DerivedConstants()
    ensures WorldExtent == (MapSize * CellSize) as real
    ensures WallScale == (CellSize * ProjectionConstant) as real
  {
  }

  /** Player movement per frame. */
  const MoveSpeed: real := 3.0
  const RotSpeed: real := 0.05

  /** 1 = wall, 0 = empty; indexed `WorldMap[row][column]`, i.e. `[gridY][gridX]`. */
  const WorldMap: seq<seq<int>> := [
    [1, 1, 1, 1, 1, 1, 1, 1, 1, 1, 1, 1, 1, 1, 1, 1],
    [1, 0, 0, 0, 0, 0, 1, 0, 0, 0, 0, 0, 0, 0, 0, 1],
    [1, 0, 0, 0, 0, 0, 1, 0, 0, 0, 0, 0, 0, 0, 0, 1],
    [1, 0, 0, 0, 0, 0, 1, 0, 0, 0, 0, 0, 0, 0, 0, 1],
    [1, 0, 0, 1, 1, 1, 1, 0, 0, 0, 0, 0, 0, 0, 0, 1],
    [1, 0, 0, 0, 0, 0, 0, 0, 0, 0, 0, 0, 0, 0, 0, 1],
    [1, 0, 0, 0, 0, 0, 0, 0, 0, 1, 1, 0, 1, 1, 0, 1],
    [1, 0, 1, 0, 0, 0, 0, 0, 0, 1, 0, 0, 0, 1, 0, 1],
    [1, 0, 1, 0, 0, 0, 0, 0, 0, 1, 0, 0, 0, 1, 0, 1],
    [1, 0, 0, 0, 0, 0, 0, 0, 0, 1, 1, 0, 1, 1, 0, 1],
    [1, 0, 0, 0, 0, 0, 0, 0, 0, 0, 0, 0, 0, 0, 0, 1],
    [1, 0, 0, 1, 0, 0, 1, 0, 0, 0, 0, 0, 0, 0, 0, 1],
    [1, 0, 0, 1, 0, 0, 1, 0, 0, 0, 0, 0, 0, 0, 0, 1],
    [1, 0, 0, 0, 0, 0, 0, 0, 0, 0, 0, 0, 0, 0, 0, 1],
    [1, 0, 0, 0, 0, 0, 0, 0, 0, 0, 0, 0, 0, 0, 0, 1],
    [1, 1, 1, 1, 1, 1, 1, 1, 1, 1, 1, 1, 1, 1, 1, 1]
  ]

  /** A MapSize x MapSize grid of cells, indexed `grid[gridY][gridX]`. */
  predicate IsGrid(grid: seq<seq<int>>)
  {
    |grid| == MapSize && forall r :: 0 <= r < MapSize ==> |grid[r]| == MapSize
  }

  /** A grid whose outermost ring of cells is all walls. */
  predicate IsWalled(grid: seq<seq<int>>)
    requires IsGrid(grid)
  {
    forall i :: 0 <= i < MapSize ==>
      grid[0][i] == 1 && grid[MapSize - 1][i] == 1 && grid[i][0] == 1 && grid[i][MapSize - 1] == 1
  }

  /** The world map is square, MapSize cells on a side, and walled in on all four sides. */
  lemma WorldMapIsWalled()
    ensures IsGrid(WorldMap) && IsWalled(WorldMap)
  {
  }

  // ---------------------------------------------------------------------
  // Occupancy lookup
  // ---------------------------------------------------------------------

  /**
   * The grid index of a world coordinate: Python's `v // CELL_SIZE` on a float.
   * The cell size appears as the literal 64 so that the arithmetic stays linear.
   */
  function GridIndex(v: real): (g: int)
    ensures (g * 64) as real <= v < ((g + 1) * 64) as real
  {
    (v / 64.0).Floor
  }

  /**
   * check_collision: is the world point (x, y) inside a wall cell of `grid`?
   * Points off the map are not walls.  The engine passes WorldMap.
   */
  function CheckCollision(grid: seq<seq<int>>, x: real, y: real): (wall: bool)
    requires IsGrid(grid)
    ensures wall ==> 0.0 <= x < WorldExtent && 0.0 <= y < WorldExtent
  {
    var gridX := GridIndex(x);
    var gridY := GridIndex(y);
    if 0 <= gridX < MapSize && 0 <= gridY < MapSize then grid[gridY][gridX] == 1 else false
  }

  lemma CellIndexUnique(v: real, g: int)
    requires (g * CellSize) as real <= v < ((g + 1) * CellSize) as real
    ensures GridIndex(v) == g
  {
  }

  /** A point lying in cell (gx, gy) collides exactly when that cell is on the map and is a wall. */
  lemma CollisionIsCellLookup(grid: seq<seq<int>>, x: real, y: real, gx: int, gy: int)
    requires IsGrid(grid)
    requires (gx * CellSize) as real <= x < ((gx + 1) * CellSize) as real
    requires (gy * CellSize) as real <= y < ((gy + 1) * CellSize) as real
    ensures CheckCollision(grid, x, y) <==> 0 <= gx < MapSize && 0 <= gy < MapSize && grid[gy][gx] == 1
  {
    CellIndexUnique(x, gx);
    CellIndexUnique(y, gy);
  }

  /** In a walled grid, every point of the outermost ring of cells is a wall. */
  lemma BorderIsWall(grid: seq<seq<int>>, x: real, y: real)
    requires IsGrid(grid) && IsWalled(grid)
    requires 0.0 <= x < WorldExtent && 0.0 <= y < WorldExtent
    requires x < CellSize as real || x >= WorldExtent - CellSize as real
          || y < CellSize as real || y >= WorldExtent - CellSize as real
    ensures CheckCollision(grid, x, y)
  {
    var gx, gy := GridIndex(x), GridIndex(y);
    assert 0 <= gx < MapSize && 0 <= gy < MapSize;
    if gx == 0 || gx == MapSize - 1 {
      assert grid[gy][0] == 1 && grid[gy][MapSize - 1] == 1;
    } else {
      assert gy == 0 || gy == MapSize - 1;
      assert grid[0][gx] == 1 && grid[MapSize - 1][gx] == 1;
    }
  }

  /** In a walled grid, a point on the map that does not collide lies strictly inside the wall ring. */
  lemma FreePointIsInterior(grid: seq<seq<int>>, x: real, y: real)
    requires IsGrid(grid) && IsWalled(grid)
    requires 0.0 <= x < WorldExtent && 0.0 <= y < WorldExtent
    requires !CheckCollision(grid, x, y)
    ensures CellSize as real <= x < WorldExtent - CellSize as real
    ensures CellSize as real <= y < WorldExtent - CellSize as real
  {
    if x < CellSize as real || x >= WorldExtent - CellSize as real
      || y < CellSize as real || y >= WorldExtent - CellSize as real
    {
      BorderIsWall(grid, x, y);
    }
  }

  // ---------------------------------------------------------------------
  // Ray marching
  // ---------------------------------------------------------------------

  /** The sample point reached after travelling `dist` along one axis from `origin`. */
  function Sample(origin: real, eye: real, dist: int): real
  {
    origin + eye * dist as real
  }

  lemma SampleStep(origin: real, eye: real, dist: int)
    ensures Sample(origin, eye, dist) + eye * StepSize as real == Sample(origin, eye, dist + StepSize)
  {
  }

  /** Does the ray sample at distance `dist` lie inside a wall? */
  predicate HitsAt(grid: seq<seq<int>>, px: real, py: real, eyeX: real, eyeY: real, dist: int)
    requires IsGrid(grid)
  {
    CheckCollision(grid, Sample(px, eyeX, dist), Sample(py, eyeY, dist))
  }

  /**
   * `dist` is what the march reports: a multiple of the step in (0, MaxDepth],
   * no earlier sample is inside a wall, and either the sample at `dist` is,
   * or the depth cap was reached.
   */
  ghost predicate IsMarchResult(grid: seq<seq<int>>, px: real, py: real, eyeX: real, eyeY: real, dist: int)
    requires IsGrid(grid)
  {
    && StepSize <= dist <= MaxDepth
    && dist % StepSize == 0
    && (forall k :: StepSize <= k < dist && k % StepSize == 0 ==> !HitsAt(grid, px, py, eyeX, eyeY, k))
    && (HitsAt(grid, px, py, eyeX, eyeY, dist) || dist == MaxDepth)
  }

  /** The march result is unique: the ray's distance is a function of the ray. */
  lemma MarchResultUnique(grid: seq<seq<int>>, px: real, py: real, eyeX: real, eyeY: real, d1: int, d2: int)
    requires IsGrid(grid)
    requires IsMarchResult(grid, px, py, eyeX, eyeY, d1)
    requires IsMarchResult(grid, px, py, eyeX, eyeY, d2)
    ensures d1 == d2
  {
  }

  /** A sample that misses extends the miss-free prefix of the march by one step. */
  lemma MissExtends(grid: seq<seq<int>>, px: real, py: real, eyeX: real, eyeY: real, dist: int)
    requires IsGrid(grid)
    requires 0 <= dist && dist % StepSize == 0
    requires forall k :: StepSize <= k < dist && k % StepSize == 0 ==> !HitsAt(grid, px, py, eyeX, eyeY, k)
    requires dist == 0 || !HitsAt(grid, px, py, eyeX, eyeY, dist)
    ensures forall k :: StepSize <= k < dist + StepSize && k % StepSize == 0 ==> !HitsAt(grid, px, py, eyeX, eyeY, k)
  {
    forall k | StepSize <= k < dist + StepSize && k % StepSize == 0
      ensures !HitsAt(grid, px, py, eyeX, eyeY, k)
    {
      if k >= dist {
        assert k == dist;
      }
    }
  }

  /**
   * The inner loop of cast_rays: step from the player along (eyeX, eyeY)
   * until a sample falls inside a wall or the depth cap is reached.
   * `iterations` counts the loop's turns.
   */
  method MarchRay(grid: seq<seq<int>>, px: real, py: real, eyeX: real, eyeY: real)
    returns (dist: int, hitWall: bool, ghost iterations: nat)
    requires IsGrid(grid)
    ensures IsMarchResult(grid, px, py, eyeX, eyeY, dist)
    ensures hitWall <==> HitsAt(grid, px, py, eyeX, eyeY, dist)
    ensures dist == StepSize * iterations && 1 <= iterations <= MaxDepth / StepSize
  {
    dist := 0;
    hitWall := false;
    iterations := 0;
    var currX, currY := px, py;
    while !hitWall && dist < MaxDepth
      invariant 0 <= dist <= MaxDepth && dist == StepSize * iterations
      invariant currX == Sample(px, eyeX, dist) && currY == Sample(py, eyeY, dist)
      invariant forall k :: StepSize <= k < dist && k % StepSize == 0 ==> !HitsAt(grid, px, py, eyeX, eyeY, k)
      invariant hitWall ==> StepSize <= dist && HitsAt(grid, px, py, eyeX, eyeY, dist)
      invariant !hitWall && dist != 0 ==> !HitsAt(grid, px, py, eyeX, eyeY, dist)
      decreases MaxDepth - dist
    {
      MissExtends(grid, px, py, eyeX, eyeY, dist);
      SampleStep(px, eyeX, dist);
      SampleStep(py, eyeY, dist);
      currX := currX + eyeX * StepSize as real;
      currY := currY + eyeY * StepSize as real;
      dist := dist + StepSize;
      iterations := iterations + 1;
      if CheckCollision(grid, currX, currY) {
        hitWall := true;
      }
    }
  }

  // ---------------------------------------------------------------------
  // Fish-eye correction, projection and shading
  // ---------------------------------------------------------------------

  /** The perpendicular distance `dist * cos(offset)`, raised to at least 1. */
  function CorrectedDistance(dist: int, cosOffset: real): (cd: real)
    ensures cd >= 1.0 && cd >= dist as real * cosOffset
    ensures cd == 1.0 || cd == dist as real * cosOffset
  {
    var corrected := dist as real * cosOffset;
    if corrected < 1.0 then 1.0 else corrected
  }

  /** Fish-eye correction never lengthens a distance of at least one unit ... */
  lemma CorrectionNeverLengthens(dist: int, cosOffset: real)
    requires dist >= 1 && 0.0 <= cosOffset <= 1.0
    ensures CorrectedDistance(dist, cosOffset) <= dist as real
  {
  }

  /** ... and leaves it unchanged on the ray along the facing direction. */
  lemma CorrectionOnAxis(dist: int)
    requires dist >= 1
    ensures CorrectedDistance(dist, 1.0) == dist as real
  {
  }

  /** For a ray inside the field of view, a farther hit never gives a nearer corrected distance. */
  lemma CorrectionMonotone(d1: int, d2: int, cosOffset: real)
    requires d1 <= d2 && 0.0 <= cosOffset
    ensures CorrectedDistance(d1, cosOffset) <= CorrectedDistance(d2, cosOffset)
  {
    MultiplyMonotone(cosOffset, d1 as real, d2 as real);
    ClampMonotone(d1 as real * cosOffset, d2 as real * cosOffset);
  }

  /** The clamp `max(1, p)` is monotone. */
  lemma ClampMonotone(p1: real, p2: real)
    requires p1 <= p2
    ensures (if p1 < 1.0 then 1.0 else p1) <= (if p2 < 1.0 then 1.0 else p2)
  {
  }

  /** Wall height on screen: inversely proportional to the corrected distance. */
  function ProjectedHeight(cd: real): (h: real)
    requires cd >= 1.0
    ensures 0.0 < h <= WallScale
    ensures h * cd == WallScale
  {
    WallScale / cd
  }

  /** Farther walls are strictly shorter. */
  lemma {:induction false} ProjectedHeightDecreasing(c1: real, c2: real)
    requires 1.0 <= c1 < c2
    ensures ProjectedHeight(c2) < ProjectedHeight(c1)
  {
    var h1, h2 := ProjectedHeight(c1), ProjectedHeight(c2);
    MultiplyStrict(h2, c1, c2);
    assert h2 * c1 < h1 * c1;
    if h2 >= h1 {
      MultiplyMonotone(c1, h1, h2);
    }
  }

  lemma MultiplyStrict(a: real, b: real, c: real)
    requires a > 0.0 && b < c
    ensures a * b < a * c
  {
  }

  lemma MultiplyMonotone(a: real, b: real, c: real)
    requires a >= 0.0 && b <= c
    ensures b * a <= c * a
  {
    assert c * a - b * a == (c - b) * a;
  }

  /** Python's `int()` on a float: truncation toward zero. */
  function Truncate(v: real): (n: int)
    ensures 0.0 <= v ==> n as real <= v < n as real + 1.0
    ensures v < 0.0 ==> n as real - 1.0 < v <= n as real
  {
    if v >= 0.0 then v.Floor else -((-v).Floor)
  }

  lemma TruncateMonotone(v1: real, v2: real)
    requires v1 <= v2
    ensures Truncate(v1) <= Truncate(v2)
  {
  }

  /** Linear fog: full brightness at distance 0, clamped below at MinShade. */
  function Shade(cd: real): (shade: int)
    ensures MinShade <= shade
    ensures 0.0 <= cd ==> shade <= 255
  {
    var raw := Truncate(255.0 - cd * 255.0 / MaxDepth as real);
    if raw < MinShade then MinShade else raw
  }

  /** Wherever the truncated linear fog value is at least the floor, it is the shade; it reaches the floor from MaxDepth * 225 / 255 on. */
  lemma ShadeIsFog(cd: real)
    ensures Shade(cd) > MinShade ==> Shade(cd) == Truncate(255.0 - cd * 255.0 / MaxDepth as real)
    ensures Truncate(255.0 - cd * 255.0 / MaxDepth as real) >= MinShade ==> Shade(cd) == Truncate(255.0 - cd * 255.0 / MaxDepth as real)
    ensures Shade(cd) == MinShade <== cd >= 800.0 * 225.0 / 255.0
  {
  }

  /** Shade never increases with the corrected distance. */
  lemma ShadeMonotone(c1: real, c2: real)
    requires c1 <= c2
    ensures Shade(c2) <= Shade(c1)
  {
    assert 255.0 - c2 * 255.0 / MaxDepth as real <= 255.0 - c1 * 255.0 / MaxDepth as real;
    TruncateMonotone(255.0 - c2 * 255.0 / MaxDepth as real, 255.0 - c1 * 255.0 / MaxDepth as real);
  }

  // ---------------------------------------------------------------------
  // Colour strings: Python's `f'{n:02x}'`
  // ---------------------------------------------------------------------

  const HexDigits: string := "0123456789abcdef"

  /** A lower-case hexadecimal digit, as `x` formatting prints them. */
  predicate IsHexDigit(c: char)
  {
    '0' <= c <= '9' || 'a' <= c <= 'f'
  }

  function HexDigit(d: int): (c: char)
    requires 0 <= d < 16
    ensures IsHexDigit(c)
  {
    HexDigits[d]
  }

  /** The value of a lower-case hex digit; other characters read as 0. */
  function HexValue(c: char): (v: int)
    ensures 0 <= v < 16
  {
    if '0' <= c <= '9' then c as int - '0' as int
    else if 'a' <= c <= 'f' then c as int - 'a' as int + 10
    else 0
  }

  lemma HexValueOfDigit(d: int)
    requires 0 <= d < 16
    ensures HexValue(HexDigit(d)) == d
  {
  }

  /** Lower-case hexadecimal digits of n, most significant first, no leading zeros. */
  function Hex(n: nat): (s: string)
    ensures 1 <= |s|
    ensures n < 16 <==> |s| == 1
    ensures forall i :: 0 <= i < |s| ==> IsHexDigit(s[i])
    decreases n
  {
    if n < 16 then [HexDigit(n)] else Hex(n / 16) + [HexDigit(n % 16)]
  }

  /** `f'{n:02x}'`: hex digits, zero-padded to at least two. */
  function Format02x(n: nat): (s: string)
    ensures |s| == if |Hex(n)| < 2 then 2 else |Hex(n)|
    ensures s[|s| - |Hex(n)|..] == Hex(n)
    ensures forall i :: 0 <= i < |s| - |Hex(n)| ==> s[i] == '0'
  {
    var h := Hex(n);
    if |h| < 2 then "0" + h else h
  }

  /** Reads a string of hex digits back into a number. */
  function ParseHex(s: string): (n: nat)
  {
    if s == [] then 0 else ParseHex(s[..|s| - 1]) * 16 + HexValue(s[|s| - 1])
  }

  lemma {:induction false} HexRoundTrip(n: nat)
    ensures ParseHex(Hex(n)) == n
    decreases n
  {
    if n < 16 {
      HexValueOfDigit(n);
      assert Hex(n)[..0] == [];
    } else {
      var h := Hex(n);
      HexRoundTrip(n / 16);
      HexValueOfDigit(n % 16);
      assert h[..|h| - 1] == Hex(n / 16);
    }
  }

  /** For a byte, `02x` gives exactly two digits, and they read back as the byte. */
  lemma {:induction false} Format02xRoundTrip(n: nat)
    requires n < 256
    ensures |Format02x(n)| == 2
    ensures IsHexDigit(Format02x(n)[0]) && IsHexDigit(Format02x(n)[1])
    ensures ParseHex(Format02x(n)) == n
  {
    HexRoundTrip(n);
    var h := Hex(n);
    if n >= 16 {
      assert Hex(n / 16) == [HexDigit(n / 16)];
    } else {
      var s := "0" + h;
      assert s[..|s| - 1] == "0";
      assert "0"[..0] == [];
      assert h[..0] == [];
    }
  }

  /** The blue wall colour `#0000xx`. */
  function WallColor(shade: nat): (c: string)
    ensures |c| >= 7 && c[..5] == "#0000"
  {
    "#" + Format02x(0) + Format02x(0) + Format02x(shade)
  }

  /** For a byte shade the colour is `#0000` followed by exactly two digits that encode the shade. */
  lemma {:induction false} WallColorEncodesShade(shade: nat)
    requires shade < 256
    ensures |WallColor(shade)| == 7
    ensures WallColor(shade)[..5] == "#0000"
    ensures IsHexDigit(WallColor(shade)[5]) && IsHexDigit(WallColor(shade)[6])
    ensures ParseHex(WallColor(shade)[5..]) == shade
  {
    Format02xRoundTrip(shade);
    WallColorSplit(shade);
    PrefixedPair(Format02x(shade), WallColor(shade));
  }

  /** A two-character string behind the prefix `#0000`, read back by position. */
  lemma PrefixedPair(f: string, c: string)
    requires |f| == 2 && c == "#0000" + f
    ensures |c| == 7 && c[..5] == "#0000" && c[5..] == f
    ensures c[5] == f[0] && c[6] == f[1]
  {
  }

  /** The wall colour is the prefix `#0000` followed by the shade's `02x` digits. */
  lemma WallColorSplit(shade: nat)
    ensures WallColor(shade) == "#0000" + Format02x(shade)
  {
    var z := Format02x(0);
    assert z == "00";
    assert "#" + z + z == "#0000";
  }

  // ---------------------------------------------------------------------
  // Strips
  // ---------------------------------------------------------------------

  /**
   * One vertical line on screen: its column, its extent and its fog shade.
   * The fill colour handed to the canvas is derived from the shade.
   */
  datatype Strip = Strip(x: int, top: real, bottom: real, shade: int)
  {
    /** The fill colour `#0000xx`, xx the shade in two hex digits. */
    function Color(): (c: string)
      requires 0 <= shade
      ensures |c| >= 7 && c[..5] == "#0000"
    {
      WallColor(shade)
    }
  }

  /** Turns ray `ray`'s march distance and the cosine of its offset from the facing angle into a strip. */
  function ProjectStrip(ray: int, dist: int, cosOffset: real): (s: Strip)
    ensures s.x == ray * Scale
    ensures s.top + s.bottom == Height as real
    ensures (s.bottom - s.top) * CorrectedDistance(dist, cosOffset) == WallScale
    ensures 0.0 < s.bottom - s.top <= WallScale
    ensures MinShade <= s.shade <= 255
  {
    var cd := CorrectedDistance(dist, cosOffset);
    var projHeight := ProjectedHeight(cd);
    var top, bottom := Height as real / 2.0 - projHeight / 2.0, Height as real / 2.0 + projHeight / 2.0;
    assert bottom - top == projHeight;
    Strip(ray * Scale, top, bottom, Shade(cd))
  }

  /** The strip's colour is `#0000` and two hex digits that read back as the fog shade of its corrected distance. */
  lemma StripColorEncodesShade(ray: int, dist: int, cosOffset: real)
    ensures var s := ProjectStrip(ray, dist, cosOffset);
      && s.shade == Shade(CorrectedDistance(dist, cosOffset))
      && |s.Color()| == 7 && s.Color()[..5] == "#0000"
      && ParseHex(s.Color()[5..]) == s.shade
  {
    WallColorEncodesShade(ProjectStrip(ray, dist, cosOffset).shade);
  }

  /** A farther hit on the same ray never gives a taller or brighter strip. */
  lemma StripMonotone(ray: int, d1: int, d2: int, cosOffset: real)
    requires d1 <= d2 && 0.0 <= cosOffset
    ensures ProjectStrip(ray, d2, cosOffset).bottom - ProjectStrip(ray, d2, cosOffset).top
         <= ProjectStrip(ray, d1, cosOffset).bottom - ProjectStrip(ray, d1, cosOffset).top
    ensures ProjectStrip(ray, d2, cosOffset).shade <= ProjectStrip(ray, d1, cosOffset).shade
  {
    var c1, c2 := CorrectedDistance(d1, cosOffset), CorrectedDistance(d2, cosOffset);
    CorrectionMonotone(d1, d2, cosOffset);
    if c1 < c2 {
      ProjectedHeightDecreasing(c1, c2);
    }
    ShadeMonotone(c1, c2);
  }

  // ---------------------------------------------------------------------
  // Casting all rays
  // ---------------------------------------------------------------------

  /** The angle of ray `ray`: the rays sweep the field of view from left to right. */
  function RayAngle(playerAngle: real, ray: int): (a: real)
    ensures a - playerAngle == (ray - NumRays / 2) as real * DeltaAngle
  {
    assert HalfFov == (NumRays / 2) as real * DeltaAngle;
    playerAngle - HalfFov + ray as real * DeltaAngle
  }

  lemma RayAngleStep(playerAngle: real, ray: int)
    ensures RayAngle(playerAngle, ray) + DeltaAngle == RayAngle(playerAngle, ray + 1)
  {
  }

  lemma RayAnglesIncrease(playerAngle: real, i: int, j: int)
    requires i < j
    ensures RayAngle(playerAngle, i) < RayAngle(playerAngle, j)
  {
  }

  /** Every ray lies in the field of view, and the middle ray looks straight ahead. */
  lemma RayAnglesInFieldOfView(playerAngle: real, ray: int)
    requires 0 <= ray < NumRays
    ensures playerAngle - HalfFov <= RayAngle(playerAngle, ray) < playerAngle + HalfFov
    ensures RayAngle(playerAngle, NumRays / 2) == playerAngle
  {
  }

  /**
   * cast_rays: one strip per ray, in column order, for the player at
   * (playerX, playerY) facing playerAngle.  `dists` holds each ray's march
   * distance.
   */
  method CastRays(grid: seq<seq<int>>, playerX: real, playerY: real, playerAngle: real,
                  cos: real -> real, sin: real -> real)
    returns (strips: seq<Strip>, dists: seq<int>)
    requires IsGrid(grid)
    ensures |strips| == NumRays && |dists| == NumRays
    ensures forall i :: 0 <= i < NumRays ==>
      IsMarchResult(grid, playerX, playerY, cos(RayAngle(playerAngle, i)), sin(RayAngle(playerAngle, i)), dists[i])
    ensures forall i :: 0 <= i < NumRays ==>
      strips[i] == ProjectStrip(i, dists[i], cos(playerAngle - RayAngle(playerAngle, i)))
  {
    var rayAngle := playerAngle - HalfFov;
    strips, dists := [], [];
    for ray := 0 to NumRays
      invariant rayAngle == RayAngle(playerAngle, ray)
      invariant |strips| == ray && |dists| == ray
      invariant forall i :: 0 <= i < ray ==>
        IsMarchResult(grid, playerX, playerY, cos(RayAngle(playerAngle, i)), sin(RayAngle(playerAngle, i)), dists[i])
      invariant forall i :: 0 <= i < ray ==>
        strips[i] == ProjectStrip(i, dists[i], cos(playerAngle - RayAngle(playerAngle, i)))
    {
      var dist, _, _ := MarchRay(grid, playerX, playerY, cos(rayAngle), sin(rayAngle));
      var strip := ProjectStrip(ray, dist, cos(playerAngle - rayAngle));
      strips := strips + [strip];
      dists := dists + [dist];
      RayAngleStep(playerAngle, ray);
      rayAngle := rayAngle + DeltaAngle;
    }
  }

  // ---------------------------------------------------------------------
  // The player
  // ---------------------------------------------------------------------

  /** A point on the map and outside every wall. */
  predicate Walkable(grid: seq<seq<int>>, x: real, y: real)
    requires IsGrid(grid)
  {
    0.0 <= x < WorldExtent && 0.0 <= y < WorldExtent && !CheckCollision(grid, x, y)
  }

  /**
   * One gated move: the candidate (x + dx, y + dy) is taken in full unless it
   * lies in a wall, and then the position stays where it was.
   */
  function TryMove(grid: seq<seq<int>>, x: real, y: real, dx: real, dy: real): (p: (real, real))
    requires IsGrid(grid)
    ensures !CheckCollision(grid, x + dx, y + dy) ==> p == (x + dx, y + dy)
    ensures CheckCollision(grid, x + dx, y + dy) ==> p == (x, y)
  {
    if CheckCollision(grid, x + dx, y + dy) then (x, y) else (x + dx, y + dy)
  }

  /** In a walled grid, a move of at most MoveSpeed per axis from a walkable point never ends in a wall or off the map. */
  lemma TryMoveKeepsWalkable(grid: seq<seq<int>>, x: real, y: real, dx: real, dy: real)
    requires IsGrid(grid) && IsWalled(grid)
    requires Walkable(grid, x, y)
    requires -MoveSpeed <= dx <= MoveSpeed && -MoveSpeed <= dy <= MoveSpeed
    ensures Walkable(grid, TryMove(grid, x, y, dx, dy).0, TryMove(grid, x, y, dx, dy).1)
  {
    FreePointIsInterior(grid, x, y);
  }

  /**
   * The position after one frame's moves: the forward step along (dx, dy) if
   * `forward`, then the backward step from wherever that left the player if
   * `backward`, each gated by TryMove.
   */
  function MovedPosition(grid: seq<seq<int>>, x: real, y: real, forward: bool, backward: bool, dx: real, dy: real): (p: (real, real))
    requires IsGrid(grid)
    ensures !forward && !backward ==> p == (x, y)
    ensures p == (x, y) || !CheckCollision(grid, p.0, p.1)
  {
    var fwd := if forward then TryMove(grid, x, y, dx, dy) else (x, y);
    if backward then TryMove(grid, fwd.0, fwd.1, -dx, -dy) else fwd
  }

  /** A frame's movement, with steps of at most MoveSpeed per axis, never leaves the walkable area of a walled grid. */
  lemma MovedPositionWalkable(grid: seq<seq<int>>, x: real, y: real, forward: bool, backward: bool, dx: real, dy: real)
    requires IsGrid(grid) && IsWalled(grid)
    requires Walkable(grid, x, y)
    requires -MoveSpeed <= dx <= MoveSpeed && -MoveSpeed <= dy <= MoveSpeed
    ensures Walkable(grid, MovedPosition(grid, x, y, forward, backward, dx, dy).0,
                           MovedPosition(grid, x, y, forward, backward, dx, dy).1)
  {
    var fwd := if forward then TryMove(grid, x, y, dx, dy) else (x, y);
    if forward {
      TryMoveKeepsWalkable(grid, x, y, dx, dy);
    }
    if backward {
      TryMoveKeepsWalkable(grid, fwd.0, fwd.1, -dx, -dy);
    }
  }

  lemma StepBounded(c: real)
    requires -1.0 <= c <= 1.0
    ensures -MoveSpeed <= c * MoveSpeed <= MoveSpeed
  {
  }

  class RaycasterEngine {
    /** The occupancy map the engine reads; it is never changed. */
    const worldMap: seq<seq<int>>
    var playerX: real
    var playerY: real
    var playerAngle: real
    var leftPressed: bool
    var rightPressed: bool
    var upPressed: bool
    var downPressed: bool

    /** The map is walled in, and the player stands on it and outside every wall. */
    predicate Valid()
      reads this
    {
      IsGrid(worldMap) && IsWalled(worldMap) && Walkable(worldMap, playerX, playerY)
    }

    constructor ()
      ensures Valid() && worldMap == WorldMap
      ensures playerX == Width as real / 2.0 && playerY == Height as real / 2.0 && playerAngle == 0.0
      ensures !leftPressed && !rightPressed && !upPressed && !downPressed
    {
      worldMap := WorldMap;
      playerX := Width as real / 2.0;
      playerY := Height as real / 2.0;
      playerAngle := 0.0;
      leftPressed, rightPressed, upPressed, downPressed := false, false, false, false;
      WorldMapIsWalled();
      CollisionIsCellLookup(WorldMap, Width as real / 2.0, Height as real / 2.0, 5, 3);
    }

    /**
     * move_player: turn by RotSpeed per active turn key, then try the forward
     * step, then the backward step from wherever the forward step left the
     * player, each along the new facing direction.
     */
    method MovePlayer(cos: real -> real, sin: real -> real)
      requires Valid()
      requires forall a :: -1.0 <= cos(a) <= 1.0 && -1.0 <= sin(a) <= 1.0
      modifies this`playerX, this`playerY, this`playerAngle
      ensures Valid()
      ensures playerAngle == old(playerAngle) - (if leftPressed then RotSpeed else 0.0)
                                              + (if rightPressed then RotSpeed else 0.0)
      ensures (playerX, playerY) == MovedPosition(worldMap, old(playerX), old(playerY), upPressed, downPressed,
                                                  cos(playerAngle) * MoveSpeed, sin(playerAngle) * MoveSpeed)
    {
      Turn();
      var dx, dy := cos(playerAngle) * MoveSpeed, sin(playerAngle) * MoveSpeed;
      StepBounded(cos(playerAngle));
      StepBounded(sin(playerAngle));
      Translate(dx, dy);
    }

    /** The turning half of move_player: RotSpeed per active turn key. */
    method Turn()
      modifies this`playerAngle
      ensures playerAngle == old(playerAngle) - (if leftPressed then RotSpeed else 0.0)
                                              + (if rightPressed then RotSpeed else 0.0)
    {
      if leftPressed {
        playerAngle := playerAngle - RotSpeed;
      }
      if rightPressed {
        playerAngle := playerAngle + RotSpeed;
      }
    }

    /** The moving half of move_player: the gated forward step, then the gated backward step. */
    method Translate(dx: real, dy: real)
      requires Valid()
      requires -MoveSpeed <= dx <= MoveSpeed && -MoveSpeed <= dy <= MoveSpeed
      modifies this`playerX, this`playerY
      ensures Valid()
      ensures (playerX, playerY) == MovedPosition(worldMap, old(playerX), old(playerY), upPressed, downPressed, dx, dy)
    {
      if upPressed {
        GatedStep(dx, dy);
      }
      ghost var fwd := (playerX, playerY);
      if downPressed {
        GatedStep(-dx, -dy);
      }
      assert (playerX, playerY) == if downPressed then TryMove(worldMap, fwd.0, fwd.1, -dx, -dy) else fwd;
    }

    /** One gated step of move_player: take (x + dx, y + dy) unless it lies in a wall. */
    method GatedStep(dx: real, dy: real)
      requires Valid()
      requires -MoveSpeed <= dx <= MoveSpeed && -MoveSpeed <= dy <= MoveSpeed
      modifies this`playerX, this`playerY
      ensures Valid()
      ensures (playerX, playerY) == TryMove(worldMap, old(playerX), old(playerY), dx, dy)
    {
      TryMoveKeepsWalkable(worldMap, playerX, playerY, dx, dy);
      var newX, newY := playerX + dx, playerY + dy;
      if !CheckCollision(worldMap, newX, newY) {
        playerX, playerY := newX, newY;
      }
    }
  }
}
