/**
 * `RgbToSpectrumTable::get`: the trilinear lookup of sigmoid-polynomial
 * coefficients for a linear RGB colour, with the loaded values read as reals.
 */
module RgbLookup {
  import opened Vectors
  import TableInit
  import TableFormat

  const TableSize: nat := TableFormat.LoaderTableSize

  /** `RgbToSpectrumTable` with its f32 values read as reals. */
  datatype RgbToSpectrumTable = RgbToSpectrumTable(zNodes: seq<real>, table: TableFormat.Grid<real>)

  /** The shape every loaded table has. */
  predicate Loaded(s: RgbToSpectrumTable)
  {
    |s.zNodes| == TableSize && TableFormat.GridShaped(s.table)
  }

  /** `rgb.max(Vec3::splat(0.0))`. */
  function ClampNonnegative(v: Vec3): (r: Vec3)
    ensures r.x >= 0.0 && r.y >= 0.0 && r.z >= 0.0
    ensures v.x >= 0.0 && v.y >= 0.0 && v.z >= 0.0 ==> r == v
  {
    Max(v, Zero)
  }

  /** `max_element`. */
  function MaxElement(v: Vec3): real
  {
    MaxReal(v.x, MaxReal(v.y, v.z))
  }

  /** glam's `max_position`: the first lane holding the maximum. */
  function MaxPosition(v: Vec3): (r: nat)
    ensures r < 3
    ensures Get(v, r) == MaxElement(v)
    ensures forall j :: 0 <= j < r ==> Get(v, j) < Get(v, r)
    ensures forall j :: r < j < 3 ==> Get(v, j) <= Get(v, r)
  {
    var index := if v.y > v.x then 1 else 0;
    var max := if v.y > v.x then v.y else v.x;
    if v.z > max then 2 else index
  }

  /** `lerp`: a + (b - a) t. */
  function Lerp(a: real, b: real, t: real): real
  {
    a + (b - a) * t
  }

  /** `(x as usize).min(TABLE_SIZE - 2)` for a non-negative x. */
  function CellIndex(x: real): (r: nat)
    requires 0.0 <= x
    ensures r <= TableSize - 2
    ensures r as real <= x
    ensures r < TableSize - 2 ==> x < r as real + 1.0
  {
    var truncated := x.Floor;
    if truncated < TableSize - 2 then truncated as nat else TableSize - 2
  }

  /**
   * `(i..=TABLE_SIZE - 2).find(|&i| z_nodes[i + 1] > z).unwrap_or(TABLE_SIZE - 2)`:
   * the first i with z_nodes[i + 1] > z, or T - 2 when there is none.
   */
  function FindZ(zNodes: seq<real>, z: real, i: nat): (r: nat)
    requires |zNodes| == TableSize && i <= TableSize - 2
    ensures i <= r <= TableSize - 2
    ensures forall j :: i < j <= r ==> zNodes[j] <= z
    ensures zNodes[r + 1] > z || r == TableSize - 2
    decreases TableSize - 2 - i
  {
    if zNodes[i + 1] > z then i
    else if i == TableSize - 2 then TableSize - 2
    else FindZ(zNodes, z, i + 1)
  }

  /** The search finds a node above z exactly when there is one. */
  lemma FindZFound(zNodes: seq<real>, z: real)
    requires |zNodes| == TableSize
    ensures var r := FindZ(zNodes, z, 0);
      zNodes[r + 1] > z <==> exists j :: 1 <= j <= TableSize - 1 && zNodes[j] > z
  {
    var r := FindZ(zNodes, z, 0);
    if zNodes[r + 1] > z {
      assert 1 <= r + 1 <= TableSize - 1;
    } else {
      assert forall j :: 1 <= j <= TableSize - 1 ==> zNodes[j] <= z;
    }
  }

  /** The lookup cell (maxComponent, zi, yi, xi) and the offsets dx, dy within it. */
  datatype LookupPoint = LookupPoint(maxComponent: nat, zi: nat, yi: nat, xi: nat, dx: real, dy: real)

  /** The coordinates x and y of the colour, scaled to [0, T - 1] by its maximum z. */
  function Scaled(component: real, z: real): real
    requires 0.0 < z
  {
    component * (TableSize as real - 1.0) / z
  }

  lemma QuotientMonotone(a: real, b: real, z: real)
    requires a <= b && 0.0 < z
    ensures a / z <= b / z
  {
  }

  lemma Cancel(a: real, z: real)
    requires z != 0.0
    ensures (z * a) / z == a && (a * z) / z == a
  {
  }

  lemma ScaledInRange(component: real, z: real)
    requires 0.0 <= component <= z && 0.0 < z
    ensures 0.0 <= Scaled(component, z) <= TableSize as real - 1.0
  {
    var k := TableSize as real - 1.0;
    assert component * k <= z * k;
    QuotientMonotone(component * k, z * k, z);
    Cancel(k, z);
  }

  /**
   * The cell and offsets for channel mc holding the maximum z, with the components
   * after it (cyclically) xc and yc.
   */
  function PointFrom(s: RgbToSpectrumTable, mc: nat, z: real, xc: real, yc: real): (p: LookupPoint)
    requires Loaded(s) && mc < 3 && 0.0 < z && 0.0 <= xc <= z && 0.0 <= yc <= z
    ensures p.maxComponent < 3 && p.xi <= TableSize - 2 && p.yi <= TableSize - 2 && p.zi <= TableSize - 2
    ensures 0.0 <= p.dx <= 1.0 && 0.0 <= p.dy <= 1.0
  {
    ScaledInRange(xc, z);
    ScaledInRange(yc, z);
    var x, y := Scaled(xc, z), Scaled(yc, z);
    var xi, yi := CellIndex(x), CellIndex(y);
    LookupPoint(mc, FindZ(s.zNodes, z, 0), yi, xi, x - xi as real, y - yi as real)
  }

  /** The cell and offsets for a non-negative colour whose maximum is positive. */
  function PointOf(s: RgbToSpectrumTable, rgb: Vec3): (p: LookupPoint)
    requires Loaded(s) && rgb.x >= 0.0 && rgb.y >= 0.0 && rgb.z >= 0.0 && MaxElement(rgb) > 0.0
    ensures p.maxComponent < 3 && p.xi <= TableSize - 2 && p.yi <= TableSize - 2 && p.zi <= TableSize - 2
    ensures 0.0 <= p.dx <= 1.0 && 0.0 <= p.dy <= 1.0
  {
    var mc := MaxPosition(rgb);
    PointFrom(s, mc, Get(rgb, mc), Get(rgb, (mc + 1) % 3), Get(rgb, (mc + 2) % 3))
  }

  /** `co(dx, dy, dz)` for component i: the corner of the cell offset by (cx, cy, cz). */
  function Corner(s: RgbToSpectrumTable, p: LookupPoint, cx: nat, cy: nat, cz: nat, i: nat): real
    requires Loaded(s) && p.maxComponent < 3 && p.zi <= TableSize - 2 && p.yi <= TableSize - 2 && p.xi <= TableSize - 2
    requires cx <= 1 && cy <= 1 && cz <= 1 && i < 3
  {
    s.table[p.maxComponent][p.zi + cz][p.yi + cy][p.xi + cx][i]
  }

  /** The three nested lerps of component i: along x, then y, then z. */
  function Trilinear(s: RgbToSpectrumTable, p: LookupPoint, dz: real, i: nat): real
    requires Loaded(s) && p.maxComponent < 3 && p.zi <= TableSize - 2 && p.yi <= TableSize - 2 && p.xi <= TableSize - 2
    requires i < 3
  {
    Lerp(
      Lerp(Lerp(Corner(s, p, 0, 0, 0, i), Corner(s, p, 1, 0, 0, i), p.dx),
           Lerp(Corner(s, p, 0, 1, 0, i), Corner(s, p, 1, 1, 0, i), p.dx), p.dy),
      Lerp(Lerp(Corner(s, p, 0, 0, 1, i), Corner(s, p, 1, 0, 1, i), p.dx),
           Lerp(Corner(s, p, 0, 1, 1, i), Corner(s, p, 1, 1, 1, i), p.dx), p.dy),
      dz)
  }

  /**
   * The outcome of `get`: the interpolated coefficients; the constant-spectrum case
   * for equal components, whose coefficients are [0, 0, ln(r / (1 - r))] for the
   * reported level r; the panic on a component above 1; or a non-finite dz when
   * the two bracketing z nodes are equal.
   */
  datatype Lookup = Coefficients(c: seq<real>) | Uniform(level: real) | OutOfRange | NonFinite

  /** The z nodes bracketing the cell of p, and dz within them when they differ. */
  function ZOffset(s: RgbToSpectrumTable, p: LookupPoint, z: real): real
    requires Loaded(s) && p.zi <= TableSize - 2 && s.zNodes[p.zi + 1] != s.zNodes[p.zi]
  {
    (z - s.zNodes[p.zi]) / (s.zNodes[p.zi + 1] - s.zNodes[p.zi])
  }

  /** `get` on the linear colour (the inverse EOTF is applied by the caller). */
  function LookupOf(s: RgbToSpectrumTable, color: Vec3): Lookup
    requires Loaded(s)
  {
    var rgb := ClampNonnegative(color);
    if MaxElement(rgb) > 1.0 then OutOfRange
    else if rgb.x == rgb.y && rgb.y == rgb.z then Uniform(rgb.x)
    else
      var p := PointOf(s, rgb);
      var z := Get(rgb, p.maxComponent);
      if s.zNodes[p.zi + 1] == s.zNodes[p.zi] then NonFinite
      else Coefficients(seq(3, i requires 0 <= i < 3 => Trilinear(s, p, ZOffset(s, p, z), i)))
  }

  /** `get` panics exactly when the clamped colour has a component above 1. */
  lemma LookupOutOfRange(s: RgbToSpectrumTable, color: Vec3)
    requires Loaded(s)
    ensures LookupOf(s, color) == OutOfRange <==> MaxElement(ClampNonnegative(color)) > 1.0
  {
  }

  /** A grey colour in range gives the constant spectrum at its level. */
  lemma LookupUniform(s: RgbToSpectrumTable, r: real)
    requires Loaded(s) && 0.0 <= r <= 1.0
    ensures LookupOf(s, Vec3(r, r, r)) == Uniform(r)
  {
  }

  /**
   * `get`, with the `for i in 0..3` loop filling `cs`; every corner it reads is in the
   * table, since xi, yi, zi are at most T - 2.
   */
  method GetCoefficients(s: RgbToSpectrumTable, color: Vec3) returns (r: Lookup)
    requires Loaded(s)
    ensures r == LookupOf(s, color)
  {
    var rgb := ClampNonnegative(color);
    if MaxElement(rgb) > 1.0 {
      return OutOfRange;
    }
    if rgb.x == rgb.y && rgb.y == rgb.z {
      return Uniform(rgb.x);
    }
    var p := PointOf(s, rgb);
    var z := Get(rgb, p.maxComponent);
    if s.zNodes[p.zi + 1] == s.zNodes[p.zi] {
      return NonFinite;
    }
    var dz := (z - s.zNodes[p.zi]) / (s.zNodes[p.zi + 1] - s.zNodes[p.zi]);
    assert dz == ZOffset(s, p, z);
    var cs := InterpolateCell(s, p, dz);
    r := Coefficients(cs);
  }

  /** The `for i in 0..3` loop of `get` filling `cs` with the three interpolated coefficients. */
  method InterpolateCell(s: RgbToSpectrumTable, p: LookupPoint, dz: real) returns (cs: seq<real>)
    requires Loaded(s) && p.maxComponent < 3 && p.zi <= TableSize - 2 && p.yi <= TableSize - 2 && p.xi <= TableSize - 2
    ensures cs == seq(3, i requires 0 <= i < 3 => Trilinear(s, p, dz, i))
  {
    var a := new real[3](_ => 0.0);
    for i := 0 to 3
      invariant forall j :: 0 <= j < i ==> a[j] == Trilinear(s, p, dz, j)
    {
      a[i] := Trilinear(s, p, dz, i);
    }
    cs := a[..];
  }

  // ---------------------------------------------------------------------------
  // Properties of the interpolation

  lemma LerpEnds(a: real, b: real)
    ensures Lerp(a, b, 0.0) == a && Lerp(a, b, 1.0) == b
  {
  }

  /** With t in [0, 1] the lerp stays within any interval holding both ends. */
  lemma LerpWithin(a: real, b: real, t: real, lo: real, hi: real)
    requires lo <= a <= hi && lo <= b <= hi && 0.0 <= t <= 1.0
    ensures lo <= Lerp(a, b, t) <= hi
  {
    var d := b - a;
    assert Lerp(a, b, t) == a + d * t;
    if 0.0 <= d {
      UnitScale(d, t);
    } else {
      UnitScaleNegative(d, t);
    }
  }

  lemma UnitScaleNegative(d: real, t: real)
    requires d <= 0.0 && 0.0 <= t <= 1.0
    ensures d <= d * t <= 0.0
  {
    assert d * t - d == d * (t - 1.0);
  }

  lemma UnitScale(d: real, t: real)
    requires 0.0 <= d && 0.0 <= t <= 1.0
    ensures 0.0 <= d * t <= d
  {
    assert d - d * t == d * (1.0 - t);
  }

  /** At integral offsets the interpolation returns the corner they select. */
  lemma TrilinearAtCorner(s: RgbToSpectrumTable, p: LookupPoint, cx: nat, cy: nat, cz: nat, i: nat)
    requires Loaded(s) && p.maxComponent < 3 && p.zi <= TableSize - 2 && p.yi <= TableSize - 2 && p.xi <= TableSize - 2
    requires i < 3 && cx <= 1 && cy <= 1 && cz <= 1 && p.dx == cx as real && p.dy == cy as real
    ensures Trilinear(s, p, cz as real, i) == Corner(s, p, cx, cy, cz, i)
  {
    var c000, c100, c010, c110 := Corner(s, p, 0, 0, 0, i), Corner(s, p, 1, 0, 0, i), Corner(s, p, 0, 1, 0, i), Corner(s, p, 1, 1, 0, i);
    var c001, c101, c011, c111 := Corner(s, p, 0, 0, 1, i), Corner(s, p, 1, 0, 1, i), Corner(s, p, 0, 1, 1, i), Corner(s, p, 1, 1, 1, i);
    LerpAtEnd(c000, c100, cx);
    LerpAtEnd(c010, c110, cx);
    LerpAtEnd(c001, c101, cx);
    LerpAtEnd(c011, c111, cx);
    var y0 := if cx == 0 then c000 else c100;
    var y1 := if cx == 0 then c010 else c110;
    var y2 := if cx == 0 then c001 else c101;
    var y3 := if cx == 0 then c011 else c111;
    LerpAtEnd(y0, y1, cy);
    LerpAtEnd(y2, y3, cy);
    LerpAtEnd(if cy == 0 then y0 else y1, if cy == 0 then y2 else y3, cz);
  }

  lemma LerpAtEnd(a: real, b: real, c: nat)
    requires c <= 1
    ensures Lerp(a, b, c as real) == if c == 0 then a else b
  {
    if c == 1 {
      assert c as real == 1.0;
    }
  }

  /** With dx, dy, dz in [0, 1] each coefficient lies within any bounds of the eight corners. */
  lemma TrilinearWithin(s: RgbToSpectrumTable, p: LookupPoint, dz: real, i: nat, lo: real, hi: real)
    requires Loaded(s) && p.maxComponent < 3 && p.zi <= TableSize - 2 && p.yi <= TableSize - 2 && p.xi <= TableSize - 2
    requires i < 3 && 0.0 <= p.dx <= 1.0 && 0.0 <= p.dy <= 1.0 && 0.0 <= dz <= 1.0
    requires forall cx, cy, cz :: 0 <= cx <= 1 && 0 <= cy <= 1 && 0 <= cz <= 1 ==> lo <= Corner(s, p, cx, cy, cz, i) <= hi
    ensures lo <= Trilinear(s, p, dz, i) <= hi
  {
    var c000, c100, c010, c110 := Corner(s, p, 0, 0, 0, i), Corner(s, p, 1, 0, 0, i), Corner(s, p, 0, 1, 0, i), Corner(s, p, 1, 1, 0, i);
    var c001, c101, c011, c111 := Corner(s, p, 0, 0, 1, i), Corner(s, p, 1, 0, 1, i), Corner(s, p, 0, 1, 1, i), Corner(s, p, 1, 1, 1, i);
    LerpWithin(c000, c100, p.dx, lo, hi);
    LerpWithin(c010, c110, p.dx, lo, hi);
    LerpWithin(c001, c101, p.dx, lo, hi);
    LerpWithin(c011, c111, p.dx, lo, hi);
    LerpWithin(Lerp(c000, c100, p.dx), Lerp(c010, c110, p.dx), p.dy, lo, hi);
    LerpWithin(Lerp(c001, c101, p.dx), Lerp(c011, c111, p.dx), p.dy, lo, hi);
    LerpWithin(Lerp(Lerp(c000, c100, p.dx), Lerp(c010, c110, p.dx), p.dy),
               Lerp(Lerp(c001, c101, p.dx), Lerp(c011, c111, p.dx), p.dy), dz, lo, hi);
  }

  /** dz lies in [0, 1] when z is bracketed by increasing nodes. */
  lemma ZOffsetInUnit(s: RgbToSpectrumTable, p: LookupPoint, z: real)
    requires Loaded(s) && p.zi <= TableSize - 2 && s.zNodes[p.zi] < s.zNodes[p.zi + 1]
    requires s.zNodes[p.zi] <= z <= s.zNodes[p.zi + 1]
    ensures 0.0 <= ZOffset(s, p, z) <= 1.0
  {
    var d := s.zNodes[p.zi + 1] - s.zNodes[p.zi];
    assert (z - s.zNodes[p.zi]) / d <= d / d;
  }

  // ---------------------------------------------------------------------------
  // The lookup agrees with the table's construction

  predicate StrictlyIncreasing(zNodes: seq<real>)
  {
    forall j, k :: 0 <= j < k < |zNodes| ==> zNodes[j] < zNodes[k]
  }

  /** On strictly increasing nodes, the search at node k finds the segment starting at k (the last one for k = T - 1). */
  lemma FindZAtNode(zNodes: seq<real>, k: nat)
    requires |zNodes| == TableSize && StrictlyIncreasing(zNodes) && k < TableSize
    ensures FindZ(zNodes, zNodes[k], 0) == if k < TableSize - 1 then k else TableSize - 2
  {
    var r := FindZ(zNodes, zNodes[k], 0);
    if k < TableSize - 1 {
      assert zNodes[k + 1] > zNodes[k];
    }
  }

  /** Scaling the grid fraction x/(T - 1) of z back by (T - 1)/z gives x. */
  lemma ScaledFraction(k: nat, z: real)
    requires 0.0 < z
    ensures Scaled(TableInit.GridCoordinate(k, z), z) == k as real
  {
    var n := TableSize as real - 1.0;
    assert TableInit.GridFraction(k) == k as real / n;
    assert (k as real / n) * z * n == k as real * z;
    assert k as real * z / z == k as real;
  }

  /** The cell index a grid line k falls into: k itself, except the last line, which ends the last cell. */
  function GridCell(k: nat): nat
  {
    if k < TableSize - 1 then k else TableSize - 2
  }

  lemma CellIndexAtGridLine(k: nat)
    requires k < TableSize
    ensures CellIndex(k as real) == GridCell(k)
    ensures k as real - CellIndex(k as real) as real == (k - GridCell(k)) as real
  {
  }

  /** Scaling grid line k's coordinate back gives the cell and offset of k. */
  lemma GridLineScaled(k: nat, z: real)
    requires k < TableSize && 0.0 < z
    ensures var x := Scaled(TableInit.GridCoordinate(k, z), z);
      x == k as real && CellIndex(x) == GridCell(k) && x - CellIndex(x) as real == (k - GridCell(k)) as real
  {
    ScaledFraction(k, z);
    CellIndexAtGridLine(k);
  }

  lemma PointFromParts(s: RgbToSpectrumTable, mc: nat, z: real, xc: real, yc: real)
    requires Loaded(s) && mc < 3 && 0.0 < z && 0.0 <= xc <= z && 0.0 <= yc <= z
    ensures var x, y := Scaled(xc, z), Scaled(yc, z);
      0.0 <= x && 0.0 <= y &&
      PointFrom(s, mc, z, xc, yc) ==
      LookupPoint(mc, FindZ(s.zNodes, z, 0), CellIndex(y), CellIndex(x), x - CellIndex(x) as real, y - CellIndex(y) as real)
  {
    ScaledInRange(xc, z);
    ScaledInRange(yc, z);
  }

  /** The point of the grid cell with coordinates (zi, yi, xi) in channel mc. */
  lemma PointFromGrid(s: RgbToSpectrumTable, mc: nat, zi: nat, yi: nat, xi: nat)
    requires Loaded(s) && mc < 3 && zi < TableSize && yi < TableSize && xi < TableSize
    requires StrictlyIncreasing(s.zNodes) && 0.0 < s.zNodes[zi]
    ensures var z, xc, yc := s.zNodes[zi], TableInit.GridCoordinate(xi, s.zNodes[zi]), TableInit.GridCoordinate(yi, s.zNodes[zi]);
      0.0 <= xc <= z && 0.0 <= yc <= z &&
      PointFrom(s, mc, z, xc, yc) ==
      LookupPoint(mc, GridCell(zi), GridCell(yi), GridCell(xi), (xi - GridCell(xi)) as real, (yi - GridCell(yi)) as real)
  {
    var z := s.zNodes[zi];
    GridLineScaled(xi, z);
    GridLineScaled(yi, z);
    TableInit.GridCoordinateWithin(xi, z);
    TableInit.GridCoordinateWithin(yi, z);
    FindZAtNode(s.zNodes, zi);
    PointFromParts(s, mc, z, TableInit.GridCoordinate(xi, z), TableInit.GridCoordinate(yi, z));
  }

  /**
   * The target colour of a grid cell is looked up in the same channel and at the
   * corner of a cell the grid cell's coordinates select.
   */
  lemma PointOfTarget(s: RgbToSpectrumTable, g: TableInit.GridIndex)
    requires Loaded(s) && TableInit.InGrid(g) && StrictlyIncreasing(s.zNodes)
    requires 0.0 < s.zNodes[g.zi]
    requires MaxPosition(TableInit.Target(g, s.zNodes)) == g.maxComponent
    ensures var rgb := TableInit.Target(g, s.zNodes);
      rgb.x >= 0.0 && rgb.y >= 0.0 && rgb.z >= 0.0 && MaxElement(rgb) == s.zNodes[g.zi] &&
      PointOf(s, rgb) == LookupPoint(g.maxComponent, GridCell(g.zi), GridCell(g.yi), GridCell(g.xi),
                                     (g.xi - GridCell(g.xi)) as real, (g.yi - GridCell(g.yi)) as real)
  {
    TargetCoordinates(g, s.zNodes);
    PointFromGrid(s, g.maxComponent, g.zi, g.yi, g.xi);
    PointOfLayout(s, TableInit.Target(g, s.zNodes), g.maxComponent, s.zNodes[g.zi],
                  TableInit.GridCoordinate(g.xi, s.zNodes[g.zi]), TableInit.GridCoordinate(g.yi, s.zNodes[g.zi]));
  }

  /** The point of a colour whose maximum z is first found in channel mc, followed by xc and yc. */
  lemma PointOfLayout(s: RgbToSpectrumTable, rgb: Vec3, mc: nat, z: real, xc: real, yc: real)
    requires Loaded(s) && rgb.x >= 0.0 && rgb.y >= 0.0 && rgb.z >= 0.0 && 0.0 < z
    requires mc < 3 && 0.0 <= xc <= z && 0.0 <= yc <= z && MaxPosition(rgb) == mc
    requires Get(rgb, mc) == z && Get(rgb, (mc + 1) % 3) == xc && Get(rgb, (mc + 2) % 3) == yc
    ensures MaxElement(rgb) == z && PointOf(s, rgb) == PointFrom(s, mc, z, xc, yc)
  {
  }

  /** The target colour holds z at its own channel and the grid coordinates of xi and yi after it. */
  lemma TargetCoordinates(g: TableInit.GridIndex, zNodes: seq<real>)
    requires TableInit.InGrid(g) && |zNodes| == TableSize && 0.0 < zNodes[g.zi]
    ensures var rgb, mc, z := TableInit.Target(g, zNodes), g.maxComponent, zNodes[g.zi];
      rgb.x >= 0.0 && rgb.y >= 0.0 && rgb.z >= 0.0 &&
      Get(rgb, mc) == z && Get(rgb, (mc + 1) % 3) == TableInit.GridCoordinate(g.xi, z) && Get(rgb, (mc + 2) % 3) == TableInit.GridCoordinate(g.yi, z)
  {
    TableInit.TargetLayout(g, zNodes);
    TableInit.GridCoordinateWithin(g.xi, zNodes[g.zi]);
    TableInit.GridCoordinateWithin(g.yi, zNodes[g.zi]);
  }

  lemma SegmentEnds(lo: real, hi: real)
    requires lo < hi
    ensures (lo - lo) / (hi - lo) == 0.0 && (hi - lo) / (hi - lo) == 1.0
  {
  }

  /** The lookup of a non-grey colour in range, once its point p is known. */
  lemma LookupAtPoint(s: RgbToSpectrumTable, rgb: Vec3, p: LookupPoint)
    requires Loaded(s) && rgb.x >= 0.0 && rgb.y >= 0.0 && rgb.z >= 0.0 && 0.0 < MaxElement(rgb) <= 1.0
    requires !(rgb.x == rgb.y && rgb.y == rgb.z) && PointOf(s, rgb) == p
    requires s.zNodes[p.zi] != s.zNodes[p.zi + 1]
    ensures LookupOf(s, rgb) == Coefficients(seq(3, i requires 0 <= i < 3 => Trilinear(s, p, ZOffset(s, p, MaxElement(rgb)), i)))
  {
    assert ClampNonnegative(rgb) == rgb;
  }

  /** At the point of grid cell g the three interpolated coefficients are the ones stored for g. */
  lemma TrilinearAtGridPoint(s: RgbToSpectrumTable, g: TableInit.GridIndex, p: LookupPoint)
    requires Loaded(s) && TableInit.InGrid(g) && StrictlyIncreasing(s.zNodes)
    requires p == LookupPoint(g.maxComponent, GridCell(g.zi), GridCell(g.yi), GridCell(g.xi),
                              (g.xi - GridCell(g.xi)) as real, (g.yi - GridCell(g.yi)) as real)
    ensures s.zNodes[p.zi] < s.zNodes[p.zi + 1] &&
      seq(3, i requires 0 <= i < 3 => Trilinear(s, p, ZOffset(s, p, s.zNodes[g.zi]), i)) == TableFormat.Cell(s.table, g)
  {
    var cx, cy, cz := g.xi - p.xi, g.yi - p.yi, g.zi - p.zi;
    var lo, hi := s.zNodes[p.zi], s.zNodes[p.zi + 1];
    assert lo < hi;
    assert s.zNodes[g.zi] == if cz == 0 then lo else hi;
    SegmentEnds(lo, hi);
    assert ZOffset(s, p, s.zNodes[g.zi]) == cz as real;
    forall i | 0 <= i < 3
      ensures Trilinear(s, p, ZOffset(s, p, s.zNodes[g.zi]), i) == TableFormat.Cell(s.table, g)[i]
    {
      TrilinearAtCorner(s, p, cx, cy, cz, i);
    }
  }

  /**
   * The lookup of a grid cell's target colour returns exactly the coefficients stored
   * for that cell, provided the nodes increase strictly, the cell's z node is in
   * (0, 1], the colour is not grey, and its maximum is first found in the cell's own
   * channel (glam's `max_position` prefers the lowest channel on ties).
   */
  lemma LookupAtGridTarget(s: RgbToSpectrumTable, g: TableInit.GridIndex)
    requires Loaded(s) && TableInit.InGrid(g) && StrictlyIncreasing(s.zNodes)
    requires 0.0 < s.zNodes[g.zi] <= 1.0
    requires var t := TableInit.Target(g, s.zNodes); !(t.x == t.y && t.y == t.z) && MaxPosition(t) == g.maxComponent
    ensures LookupOf(s, TableInit.Target(g, s.zNodes)) == Coefficients(TableFormat.Cell(s.table, g))
  {
    var rgb := TableInit.Target(g, s.zNodes);
    PointOfTarget(s, g);
    var p := LookupPoint(g.maxComponent, GridCell(g.zi), GridCell(g.yi), GridCell(g.xi),
                         (g.xi - GridCell(g.xi)) as real, (g.yi - GridCell(g.yi)) as real);
    TrilinearAtGridPoint(s, g, p);
    LookupAtPoint(s, rgb, p);
  }
}
