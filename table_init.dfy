/**
 * Precomputation of the RGB-to-spectrum coefficient table: CIE curve sampling,
 * the Simpson 3/8 integration weights, the non-linear z grid, the grid index
 * decomposition with its target colours, the Adam fitting loop and the store
 * into the nested table. Reals stand in for f32.
 */
module TableInit {
  import opened Vectors
  import opened Basics
  import PiecewiseLinearSpectra

  /** `TABLE_SIZE`: grid points per axis. */
  const TableSize: nat := 64
  /** `N_CIE_SAMPLES` and `N_CIE_FINE_SAMPLES`. */
  const NCieSamples: nat := 95
  const NCieFineSamples: nat := (NCieSamples - 1) * 3 + 1
  const LambdaMin: real := 360.0
  const LambdaMax: real := 830.0
  /** `H`: the spacing of the fine samples. */
  const H: real := (LambdaMax - LambdaMin) / ((NCieFineSamples - 1) as real)

  /** Three coefficients of a sigmoid polynomial, `[f32; 3]`. */
  type Triple = s: seq<real> | |s| == 3 witness [0.0, 0.0, 0.0]

  // ---------------------------------------------------------------------------
  // cie_interpret

  /** The position of a wavelength on the CIE sample grid, before clamping. */
  function CiePosition(lambda: real): real
  {
    (lambda - LambdaMin) * (((NCieSamples - 1) as real) / (LambdaMax - LambdaMin))
  }

  /** The clamped position: negative positions become 0. */
  function CieClampedPosition(lambda: real): (x: real)
    ensures x >= 0.0
  {
    if CiePosition(lambda) < 0.0 then 0.0 else CiePosition(lambda)
  }

  /**
   * `x as usize`, capped at N - 2: the sample to the left of the position, always
   * with a right neighbour; below the last sample it is the position's floor.
   */
  function CieOffset(x: real): (r: nat)
    requires x >= 0.0
    ensures r + 1 < NCieSamples
    ensures x < (NCieSamples - 2) as real ==> r as real <= x < r as real + 1.0
    ensures x >= (NCieSamples - 2) as real ==> r == NCieSamples - 2
  {
    if x.Floor > NCieSamples - 2 then NCieSamples - 2 else x.Floor
  }

  /** `cie_interpret`: linear interpolation of a CIE curve at a wavelength. */
  function CieInterpret(values: seq<real>, lambda: real): real
    requires |values| == NCieSamples
  {
    var x := CieClampedPosition(lambda);
    var offset := CieOffset(x);
    var weight := x - offset as real;
    (1.0 - weight) * values[offset] + weight * values[offset + 1]
  }

  /** At the k-th CIE wavelength the interpolation gives the k-th sample exactly. */
  lemma CieInterpretAtSample(values: seq<real>, k: nat)
    requires |values| == NCieSamples && k < NCieSamples
    ensures CieInterpret(values, LambdaMin + 5.0 * k as real) == values[k]
  {
    assert CiePosition(LambdaMin + 5.0 * k as real) == k as real;
    if k < NCieSamples - 1 {
      assert CieOffset(k as real) == k;
    } else {
      assert CieOffset(k as real) == NCieSamples - 2;
    }
  }

  /** Below the first CIE wavelength the first sample is returned. */
  lemma CieInterpretBelowRange(values: seq<real>, lambda: real)
    requires |values| == NCieSamples && lambda <= LambdaMin
    ensures CieInterpret(values, lambda) == values[0]
  {
    assert CiePosition(lambda) <= 0.0;
  }

  /** Inside the CIE range the result lies between the two samples around the wavelength. */
  lemma CieInterpretBetweenSamples(values: seq<real>, lambda: real)
    requires |values| == NCieSamples && LambdaMin <= lambda <= LambdaMax
    ensures var k := CieOffset(CieClampedPosition(lambda));
      (values[k] <= values[k + 1] ==> values[k] <= CieInterpret(values, lambda) <= values[k + 1]) &&
      (values[k + 1] <= values[k] ==> values[k + 1] <= CieInterpret(values, lambda) <= values[k])
  {
    var x := CieClampedPosition(lambda);
    var k := CieOffset(x);
    assert x <= (NCieSamples - 1) as real;
    var w := x - k as real;
    assert 0.0 <= w <= 1.0;
    PiecewiseLinearSpectra.ConvexCombination(values[k], values[k + 1], w);
    assert CieInterpret(values, lambda) == PiecewiseLinearSpectra.Interpolate(values[k], values[k + 1], w);
  }

  // ---------------------------------------------------------------------------
  // sigmoid, parabolic, xyy_to_xyz

  /** An f32 input that may be infinite; `sigmoid` tests `is_infinite` first. */
  datatype Extended = Finite(value: real) | PlusInfinity | MinusInfinity

  lemma SquareMonotone(a: real, b: real)
    requires 0.0 <= a <= b
    ensures a * a <= b * b
  {
    assert b * b - a * a == (b - a) * (b + a);
    assert (b - a) * (b + a) >= 0.0;
  }

  /** The square root of 1 + x^2 exceeds |x|. */
  lemma RootExceeds(x: real, root: real)
    requires root > 0.0 && root * root == 1.0 + x * x
    ensures -root < x < root
  {
    if x >= root {
      SquareMonotone(root, x);
    }
    if -x >= root {
      SquareMonotone(root, -x);
    }
  }

  lemma FactorSign(a: real, b: real)
    requires b > 0.0
    ensures a * b < 0.0 ==> a < 0.0
    ensures a * b > 0.0 ==> a > 0.0
  {
  }

  lemma HalfQuotient(x: real, d: real, q: real)
    requires d > 0.0 && -d < x < d && q == x / (2.0 * d)
    ensures -0.5 < q < 0.5
  {
    assert q * (2.0 * d) == x;
    assert (q - 0.5) * (2.0 * d) == x - d;
    assert (q + 0.5) * (2.0 * d) == x + d;
    FactorSign(q - 0.5, 2.0 * d);
    FactorSign(q + 0.5, 2.0 * d);
  }

  /**
   * `sigmoid`: 1 at +infinity, 0 at -infinity, and 1/2 + x / (2 sqrt(1 + x^2)) for
   * finite x, which lies strictly between 0 and 1. The square root is the argument
   * `root`.
   */
  function Sigmoid(x: Extended, root: real): (r: real)
    requires x.Finite? ==> root > 0.0 && root * root == 1.0 + x.value * x.value
    ensures x == PlusInfinity ==> r == 1.0
    ensures x == MinusInfinity ==> r == 0.0
    ensures x.Finite? ==> 0.0 < r < 1.0
  {
    match x
    case PlusInfinity => 1.0
    case MinusInfinity => 0.0
    case Finite(v) =>
      RootExceeds(v, root);
      HalfQuotient(v, root, v / (2.0 * root));
      0.5 + v / (2.0 * root)
  }

  /** `parabolic`: 100 c2 (t - c0)^2 + c1, a parabola with its vertex at (c0, c1). */
  function Parabolic(t: real, coefficients: seq<real>): real
    requires |coefficients| >= 3
  {
    var x := t - coefficients[0];
    100.0 * coefficients[2] * x * x + coefficients[1]
  }

  /** The parabola takes c1 at t = c0 and never goes below it when c2 >= 0. */
  lemma ParabolicVertex(t: real, coefficients: seq<real>)
    requires |coefficients| >= 3
    ensures Parabolic(coefficients[0], coefficients) == coefficients[1]
    ensures coefficients[2] >= 0.0 ==> Parabolic(t, coefficients) >= coefficients[1]
  {
    var x := t - coefficients[0];
    assert x * x >= 0.0;
    if coefficients[2] >= 0.0 {
      ProductNonnegative(100.0 * coefficients[2], x * x);
    }
  }

  /** A chromaticity (x, y). */
  datatype Chromaticity = Chromaticity(x: real, y: real)

  /**
   * `xyy_to_xyz`: zero when the chromaticity y is 0; otherwise the XYZ colour with
   * luminance Y whose chromaticity is xy, that is X : Y : Z = x : y : (1 - x - y).
   */
  function XyyToXyz(xy: Chromaticity, y: real): (r: Vec3)
    ensures xy.y == 0.0 ==> r == Zero
    ensures xy.y != 0.0 ==> r.y == y && r.x * xy.y == xy.x * y && r.z * xy.y == (1.0 - xy.x - xy.y) * y
  {
    if xy.y == 0.0 then Zero
    else
      QuotientTimesDivisor(xy.x * y, xy.y);
      QuotientTimesDivisor((1.0 - xy.x - xy.y) * y, xy.y);
      Vec3(xy.x * y / xy.y, y, (1.0 - xy.x - xy.y) * y / xy.y)
  }

  // ---------------------------------------------------------------------------
  // z_mapping and the z nodes

  function Smoothstep(x: real): real
  {
    x * x * (3.0 - 2.0 * x)
  }

  /** `z_mapping`: smoothstep applied twice to zi / (TABLE_SIZE - 1). */
  function ZMapping(zi: nat): real
  {
    Smoothstep(Smoothstep(zi as real / (TableSize - 1) as real))
  }

  lemma SmoothstepDifference(a: real, b: real)
    ensures Smoothstep(b) - Smoothstep(a) == (b - a) * (3.0 * (a + b) - 2.0 * (a * a + a * b + b * b))
  {
  }

  lemma ProductBelowFactor(a: real, b: real)
    requires 0.0 <= a && 0.0 <= b <= 1.0
    ensures a * b <= a
  {
    assert a - a * b == a * (1.0 - b);
    ProductNonnegative(a, 1.0 - b);
  }

  lemma BoundedQuadratic(a: real, b: real, aa: real, ab: real, bb: real)
    requires 0.0 <= a && 0.0 <= b && aa <= a && bb <= b && ab <= a && ab <= b
    ensures 3.0 * (a + b) - 2.0 * (aa + ab + bb) >= 0.0
  {
  }

  lemma SmoothstepStep(a: real, b: real)
    requires 0.0 <= a <= b <= 1.0
    ensures Smoothstep(a) <= Smoothstep(b)
  {
    var aa, ab, bb := a * a, a * b, b * b;
    ProductBelowFactor(a, a);
    ProductBelowFactor(b, b);
    ProductBelowFactor(a, b);
    ProductBelowFactor(b, a);
    BoundedQuadratic(a, b, aa, ab, bb);
    ProductNonnegative(b - a, 3.0 * (a + b) - 2.0 * (aa + ab + bb));
    SmoothstepDifference(a, b);
  }

  /** Smoothstep maps [0, 1] monotonically into [0, 1]. */
  lemma SmoothstepMonotone(a: real, b: real)
    requires 0.0 <= a <= b <= 1.0
    ensures 0.0 <= Smoothstep(a) <= Smoothstep(b) <= 1.0
  {
    SmoothstepStep(0.0, a);
    SmoothstepStep(a, b);
    SmoothstepStep(b, 1.0);
  }

  /** The z grid starts at 0, ends at 1 and never decreases. */
  lemma ZMappingMonotone(i: nat, j: nat)
    requires i <= j <= TableSize - 1
    ensures ZMapping(0) == 0.0 && ZMapping(TableSize - 1) == 1.0
    ensures 0.0 <= ZMapping(i) <= ZMapping(j) <= 1.0
  {
    var a, b := i as real / 63.0, j as real / 63.0;
    assert 0.0 <= a <= b <= 1.0;
    SmoothstepMonotone(a, b);
    SmoothstepMonotone(Smoothstep(a), Smoothstep(b));
  }

  /** The `iter_mut` loop of `init_table` writing `z_mapping(i)` into every z node. */
  method FillZNodes(zNodes: array<real>)
    modifies zNodes
    ensures forall i :: 0 <= i < zNodes.Length ==> zNodes[i] == ZMapping(i)
  {
    for i := 0 to zNodes.Length
      invariant forall k :: 0 <= k < i ==> zNodes[k] == ZMapping(k)
    {
      zNodes[i] := ZMapping(i);
    }
  }

  // ---------------------------------------------------------------------------
  // Simpson 3/8 weights and the CIE Y normalisation

  /** The Simpson 3/8 base weight 3H/8. */
  const SimpsonBase: real := 3.0 / 8.0 * H

  /** The weight of fine sample i: the base at both ends, twice it when (i - 1) % 3 == 2, three times it otherwise. */
  function SimpsonWeight(i: nat): real
  {
    if i == 0 || i == NCieFineSamples - 1 then SimpsonBase
    else if (i - 1) % 3 == 2 then SimpsonBase * 2.0
    else SimpsonBase * 3.0
  }

  /** The sum of the first n weights. */
  function WeightSum(n: nat): real
  {
    if n == 0 then 0.0 else WeightSum(n - 1) + SimpsonWeight(n - 1)
  }

  /** A weight in units of the base weight: 1 at both ends, 2 when (i - 1) % 3 == 2, 3 otherwise. */
  function WeightUnits(i: nat): real
  {
    if i == 0 || i == NCieFineSamples - 1 then 1.0
    else if (i - 1) % 3 == 2 then 2.0
    else 3.0
  }

  /** The sum of the first n weights in units of the base weight. */
  function UnitSum(n: nat): real
  {
    if n == 0 then 0.0 else UnitSum(n - 1) + WeightUnits(n - 1)
  }

  lemma {:induction false} WeightSumScales(n: nat)
    ensures WeightSum(n) == SimpsonBase * UnitSum(n)
  {
    if n > 0 {
      WeightSumScales(n - 1);
      assert SimpsonWeight(n - 1) == SimpsonBase * WeightUnits(n - 1);
      Distribute(SimpsonBase, UnitSum(n - 1), WeightUnits(n - 1));
    }
  }

  lemma {:induction false} UnitPrefix(n: nat)
    requires 1 <= n <= NCieFineSamples - 1
    ensures UnitSum(n) == 1.0 + 3.0 * (n - 1) as real - ((n - 1) / 3) as real
  {
    if n > 1 {
      UnitPrefix(n - 1);
      InteriorCountStep(n - 2);
    }
  }

  /** Every sample but the last contributes its weight: the prefix sums of the Simpson 3/8 weights. */
  lemma {:induction false} WeightPrefix(n: nat)
    requires 1 <= n <= NCieFineSamples - 1
    ensures WeightSum(n) == SimpsonBase * (1.0 + 3.0 * (n - 1) as real - ((n - 1) / 3) as real)
  {
    UnitPrefix(n);
    WeightSumScales(n);
  }

  /** One more interior sample adds 2 or 3 base weights to the count 1 + 3m - m / 3. */
  lemma {:induction false} InteriorCountStep(m: nat)
    ensures 1.0 + 3.0 * (m + 1) as real - ((m + 1) / 3) as real ==
            1.0 + 3.0 * m as real - (m / 3) as real + (if m % 3 == 2 then 2.0 else 3.0)
  {
    if m % 3 == 2 {
      assert (m + 1) / 3 == m / 3 + 1;
    } else {
      assert (m + 1) / 3 == m / 3;
    }
  }

  lemma Distribute(a: real, x: real, y: real)
    ensures a * x + a * y == a * (x + y)
  {
  }

  /** The weights add up to the length of the wavelength range, so a constant integrand is integrated exactly. */
  lemma WeightsSumToRange()
    ensures WeightSum(NCieFineSamples) == LambdaMax - LambdaMin
  {
    WeightPrefix(NCieFineSamples - 1);
  }

  /** The wavelength of fine sample i. */
  function FineLambda(i: nat): real
  {
    LambdaMin + H * i as real
  }

  /** The first n terms of the weighted sum of the Y curve over the fine samples. */
  function YIntegralUpTo(cieY: seq<real>, n: nat): real
    requires |cieY| == NCieSamples
  {
    if n == 0 then 0.0 else YIntegralUpTo(cieY, n - 1) + CieInterpret(cieY, FineLambda(n - 1)) * SimpsonWeight(n - 1)
  }

  /** `cie_y_integral`. */
  function CieYIntegral(cieY: seq<real>): real
    requires |cieY| == NCieSamples
  {
    YIntegralUpTo(cieY, NCieFineSamples)
  }

  /** The XYZ weights of fine sample i: (x, y, z) times its weight, divided by the Y integral. */
  function WeightedXyz(cieX: seq<real>, cieY: seq<real>, cieZ: seq<real>, i: nat): Vec3
    requires |cieX| == NCieSamples && |cieY| == NCieSamples && |cieZ| == NCieSamples
    requires CieYIntegral(cieY) != 0.0
  {
    var lambda := FineLambda(i);
    var w := SimpsonWeight(i);
    var integral := CieYIntegral(cieY);
    Vec3(CieInterpret(cieX, lambda) * w / integral, CieInterpret(cieY, lambda) * w / integral,
         CieInterpret(cieZ, lambda) * w / integral)
  }

  /** The sum of the Y components of the first n weighted samples. */
  function WeightedYSum(cieX: seq<real>, cieY: seq<real>, cieZ: seq<real>, n: nat): real
    requires |cieX| == NCieSamples && |cieY| == NCieSamples && |cieZ| == NCieSamples
    requires CieYIntegral(cieY) != 0.0
  {
    if n == 0 then 0.0 else WeightedYSum(cieX, cieY, cieZ, n - 1) + WeightedXyz(cieX, cieY, cieZ, n - 1).y
  }

  lemma {:induction false} WeightedYPrefix(cieX: seq<real>, cieY: seq<real>, cieZ: seq<real>, n: nat)
    requires |cieX| == NCieSamples && |cieY| == NCieSamples && |cieZ| == NCieSamples
    requires CieYIntegral(cieY) != 0.0
    ensures WeightedYSum(cieX, cieY, cieZ, n) == YIntegralUpTo(cieY, n) / CieYIntegral(cieY)
  {
    if n > 0 {
      WeightedYPrefix(cieX, cieY, cieZ, n - 1);
      var d := CieYIntegral(cieY);
      SumOfQuotients(YIntegralUpTo(cieY, n - 1), CieInterpret(cieY, FineLambda(n - 1)) * SimpsonWeight(n - 1), d);
    }
  }

  lemma SumOfQuotients(a: real, b: real, d: real)
    requires d != 0.0
    ensures a / d + b / d == (a + b) / d
  {
  }

  /** After the division by the Y integral, the Y column of the weight table sums to exactly 1. */
  lemma WeightedYSumsToOne(cieX: seq<real>, cieY: seq<real>, cieZ: seq<real>)
    requires |cieX| == NCieSamples && |cieY| == NCieSamples && |cieZ| == NCieSamples
    requires CieYIntegral(cieY) != 0.0
    ensures WeightedYSum(cieX, cieY, cieZ, NCieFineSamples) == 1.0
  {
    WeightedYPrefix(cieX, cieY, cieZ, NCieFineSamples);
  }

  // ---------------------------------------------------------------------------
  // The grid index of the table precomputation

  /** The number of table cells, `3 * TABLE_SIZE^3`. */
  const CellCount: nat := 3 * TableSize * TableSize * TableSize

  /** A cell of the table: the channel holding the maximum, then z, y and x. */
  datatype GridIndex = GridIndex(maxComponent: nat, zi: nat, yi: nat, xi: nat)

  predicate InGrid(g: GridIndex)
  {
    g.maxComponent < 3 && g.zi < TableSize && g.yi < TableSize && g.xi < TableSize
  }

  /** The decomposition of the flat index i, used both to compute and to store a cell. */
  function Decompose(i: nat): GridIndex
  {
    GridIndex(i / (TableSize * TableSize * TableSize), (i / (TableSize * TableSize)) % TableSize,
              (i / TableSize) % TableSize, i % TableSize)
  }

  /** The flat index of a cell, in [maxComponent][zi][yi][xi] order. */
  function Compose(g: GridIndex): nat
  {
    ((g.maxComponent * TableSize + g.zi) * TableSize + g.yi) * TableSize + g.xi
  }

  /** Every flat index below CellCount decomposes into a cell that composes back to it. */
  lemma DecomposeCompose(i: nat)
    requires i < CellCount
    ensures InGrid(Decompose(i)) && Compose(Decompose(i)) == i
  {
    var n1 := i / TableSize;
    var n2 := n1 / TableSize;
    assert i == n1 * TableSize + i % TableSize;
    assert n1 == n2 * TableSize + n1 % TableSize;
    assert n2 == (n2 / TableSize) * TableSize + n2 % TableSize;
    DivideTwice(i);
  }

  lemma DigitSplit(a: nat, b: nat)
    requires b < TableSize
    ensures (a * TableSize + b) / TableSize == a && (a * TableSize + b) % TableSize == b
  {
  }

  lemma DivideTwice(n: nat)
    ensures n / (TableSize * TableSize) == (n / TableSize) / TableSize
    ensures n / (TableSize * TableSize * TableSize) == ((n / TableSize) / TableSize) / TableSize
  {
  }

  /** Every cell composes into a flat index below CellCount that decomposes back to it. */
  lemma ComposeDecompose(g: GridIndex)
    requires InGrid(g)
    ensures Compose(g) < CellCount && Decompose(Compose(g)) == g
  {
    var n2 := g.maxComponent * TableSize + g.zi;
    var n1 := n2 * TableSize + g.yi;
    DigitSplit(n1, g.xi);
    DigitSplit(n2, g.yi);
    DigitSplit(g.maxComponent, g.zi);
    DivideTwice(n1 * TableSize + g.xi);
  }

  /** The grid fraction of an index; 0 and 1 at the ends of the grid. */
  function GridFraction(k: nat): (f: real)
    ensures k < TableSize ==> 0.0 <= f <= 1.0
  {
    k as real / (TableSize - 1) as real
  }

  /** The component of grid line k for the maximum z: the fraction k / (T - 1) of z. */
  function GridCoordinate(k: nat, z: real): real
  {
    GridFraction(k) * z
  }

  /** For z >= 0 every grid line's component lies in [0, z]. */
  lemma GridCoordinateWithin(k: nat, z: real)
    requires k < TableSize && 0.0 <= z
    ensures 0.0 <= GridCoordinate(k, z) <= z
  {
    var f := GridFraction(k);
    ScaledByFraction(f, z);
    assert GridCoordinate(k, z) == f * z;
  }

  /**
   * The colour fitted at a cell: the maximum z = z_nodes[zi] at channel maxComponent,
   * x = xi / (T - 1) * z at the next channel and y = yi / (T - 1) * z at the one after.
   */
  function Target(g: GridIndex, zNodes: seq<real>): Vec3
    requires InGrid(g) && |zNodes| == TableSize
  {
    var z := zNodes[g.zi];
    var y := GridCoordinate(g.yi, z);
    var x := GridCoordinate(g.xi, z);
    match g.maxComponent
    case 0 => Vec3(z, x, y)
    case 1 => Vec3(y, z, x)
    case 2 => Vec3(x, y, z)
  }

  lemma ScaledByFraction(f: real, z: real)
    requires 0.0 <= f <= 1.0 && 0.0 <= z
    ensures 0.0 <= f * z <= z
  {
    assert z - f * z == (1.0 - f) * z;
    ProductNonnegative(1.0 - f, z);
    ProductNonnegative(f, z);
  }

  /**
   * The target puts z at channel maxComponent, x at the channel after it and y at the
   * one after that (cyclically).
   */
  lemma TargetLayout(g: GridIndex, zNodes: seq<real>)
    requires InGrid(g) && |zNodes| == TableSize
    ensures var r, z := Target(g, zNodes), zNodes[g.zi];
      Get(r, g.maxComponent) == z &&
      Get(r, (g.maxComponent + 1) % 3) == GridCoordinate(g.xi, z) &&
      Get(r, (g.maxComponent + 2) % 3) == GridCoordinate(g.yi, z)
  {
  }

  // ---------------------------------------------------------------------------
  // The table and its store loop

  /** `Vec<Vec<Vec<Vec<[f32; 3]>>>>`, indexed [maxComponent][zi][yi][xi]. */
  type Table = seq<seq<seq<seq<Triple>>>>

  predicate Shaped(t: Table)
  {
    |t| == 3 &&
    (forall mc :: 0 <= mc < 3 ==> |t[mc]| == TableSize) &&
    (forall mc, zi :: 0 <= mc < 3 && 0 <= zi < TableSize ==> |t[mc][zi]| == TableSize) &&
    (forall mc, zi, yi :: 0 <= mc < 3 && 0 <= zi < TableSize && 0 <= yi < TableSize ==> |t[mc][zi][yi]| == TableSize)
  }

  function Entry(t: Table, g: GridIndex): Triple
    requires Shaped(t) && InGrid(g)
  {
    t[g.maxComponent][g.zi][g.yi][g.xi]
  }

  /** The table with one cell replaced: that cell holds the item and every other cell is unchanged. */
  function Store(t: Table, g: GridIndex, item: Triple): (r: Table)
    requires Shaped(t) && InGrid(g)
    ensures Shaped(r) && Entry(r, g) == item
    ensures forall h :: InGrid(h) && h != g ==> Entry(r, h) == Entry(t, h)
  {
    var plane := t[g.maxComponent][g.zi];
    var row := plane[g.yi][g.xi := item];
    t[g.maxComponent := t[g.maxComponent][g.zi := plane[g.yi := row]]]
  }

  /** The `for_each` of `init_table`: item i goes to the cell that i decomposes into. */
  method StoreCoefficients(items: seq<Triple>, table0: Table) returns (table: Table)
    requires |items| == CellCount && Shaped(table0)
    ensures Shaped(table)
    ensures forall i :: 0 <= i < CellCount ==> Entry(table, Decompose(i)) == items[i]
    ensures forall g :: InGrid(g) ==> Entry(table, g) == items[Compose(g)]
  {
    table := table0;
    for i := 0 to CellCount
      invariant Shaped(table)
      invariant forall k :: 0 <= k < i ==> InGrid(Decompose(k)) && Entry(table, Decompose(k)) == items[k]
    {
      DecomposeCompose(i);
      forall k | 0 <= k < i
        ensures Decompose(k) != Decompose(i)
      {
        DecomposeCompose(k);
      }
      table := Store(table, Decompose(i), items[i]);
    }
    forall g | InGrid(g)
      ensures Entry(table, g) == items[Compose(g)]
    {
      ComposeDecompose(g);
    }
  }

  /**
   * `init_table`: fill the z nodes, fit every cell's target colour, and store each fit
   * at its cell. `fit` is `calculate_coefficients` with its CIE tables.
   */
  method InitTable(zNodes: array<real>, table0: Table, fit: Vec3 -> Triple) returns (table: Table)
    requires zNodes.Length == TableSize && Shaped(table0)
    modifies zNodes
    ensures forall i :: 0 <= i < TableSize ==> zNodes[i] == ZMapping(i)
    ensures Shaped(table) && forall g :: InGrid(g) ==> Entry(table, g) == fit(Target(g, zNodes[..]))
  {
    FillZNodes(zNodes);
    var nodes := zNodes[..];
    var items := seq<Triple>(CellCount, i requires 0 <= i < CellCount =>
      DecomposeCompose(i);
      fit(Target(Decompose(i), nodes)));
    table := StoreCoefficients(items, table0);
    forall g | InGrid(g)
      ensures Entry(table, g) == fit(Target(g, nodes))
    {
      ComposeDecompose(g);
    }
  }

  // ---------------------------------------------------------------------------
  // calculate_coefficients

  /** `ITERATION`, the Adam parameters and the stopping threshold on delta E. */
  const Iterations: nat := 16
  const Beta1: real := 0.9
  const Beta2: real := 0.999
  const AdamEpsilon: real := 0.00000001
  const LearningRate: real := 0.1
  const StopThreshold: real := 0.001

  /** `[0.0; 5]`: the Adam moments, of which only the first three slots are used. */
  type Moments = s: seq<real> | |s| == 5 witness [0.0, 0.0, 0.0, 0.0, 0.0]

  datatype Adam = Adam(coefficients: Triple, m: Moments, v: Moments)

  function InitialAdam(): Adam
  {
    Adam([0.5, 0.0, -0.1], [0.0, 0.0, 0.0, 0.0, 0.0], [0.0, 0.0, 0.0, 0.0, 0.0])
  }

  /** `powi`. */
  function Pow(b: real, n: nat): real
  {
    if n == 0 then 1.0 else b * Pow(b, n - 1)
  }

  lemma {:induction false} PowInUnit(b: real, n: nat)
    requires 0.0 < b < 1.0 && 1 <= n
    ensures 0.0 < Pow(b, n) < 1.0
  {
    if n > 1 {
      PowInUnit(b, n - 1);
      ProductBelowFactor(b, Pow(b, n - 1));
      FactorSign(b, Pow(b, n - 1));
    }
  }

  /** A square root as far as the update needs it: never negative on non-negative input. */
  ghost predicate NonnegativeRoot(sqrt: real -> real)
  {
    forall x :: 0.0 <= x ==> 0.0 <= sqrt(x)
  }

  predicate MomentsNonnegative(s: Adam)
  {
    forall j :: 0 <= j < 5 ==> s.v[j] >= 0.0
  }

  lemma QuotientNonnegative(a: real, d: real)
    requires 0.0 <= a && 0.0 < d
    ensures 0.0 <= a / d
  {
  }

  /** The bias-corrected second moment of a slot at iteration i, and its denominator bound. */
  function VHat(v: real, i: nat): (r: real)
    requires 0.0 <= v
    ensures 0.0 <= r
  {
    PowInUnit(Beta2, i + 1);
    QuotientNonnegative(v, 1.0 - Pow(Beta2, i + 1));
    v / (1.0 - Pow(Beta2, i + 1))
  }

  function MHat(m: real, i: nat): real
  {
    PowInUnit(Beta1, i + 1);
    m / (1.0 - Pow(Beta1, i + 1))
  }

  /** The new coefficient of a slot: c - lr * m_hat / (sqrt(v_hat) + epsilon). */
  function Descend(c: real, m: real, v: real, i: nat, sqrt: real -> real): real
    requires NonnegativeRoot(sqrt) && 0.0 <= v
  {
    assert 0.0 <= sqrt(VHat(v, i));
    c - LearningRate * MHat(m, i) / (sqrt(VHat(v, i)) + AdamEpsilon)
  }

  /**
   * The update of slot j at iteration i: its first moment, its second moment (which
   * stays non-negative) and then its coefficient, from the new moments.
   */
  function AdamLane(s: Adam, g: Triple, i: nat, j: nat, sqrt: real -> real): (r: Adam)
    requires NonnegativeRoot(sqrt) && MomentsNonnegative(s) && j < 3
    ensures MomentsNonnegative(r)
  {
    var m := Beta1 * s.m[j] + (1.0 - Beta1) * g[j];
    ProductNonnegative(Beta2, s.v[j]);
    ProductNonnegative(1.0 - Beta2, g[j] * g[j]);
    var v := Beta2 * s.v[j] + (1.0 - Beta2) * (g[j] * g[j]);
    Adam(s.coefficients[j := Descend(s.coefficients[j], m, v, i, sqrt)], s.m[j := m], s.v[j := v])
  }

  /** The slots below j updated, in order. */
  function AdamLanes(s: Adam, g: Triple, i: nat, j: nat, sqrt: real -> real): (r: Adam)
    requires NonnegativeRoot(sqrt) && MomentsNonnegative(s) && j <= 3
    ensures MomentsNonnegative(r)
    ensures forall k :: 3 <= k < 5 ==> r.m[k] == s.m[k] && r.v[k] == s.v[k]
  {
    if j == 0 then s else AdamLane(AdamLanes(s, g, i, j - 1, sqrt), g, i, j - 1, sqrt)
  }

  /**
   * One `for j in 0..3` pass of the Adam update at iteration i: the moments of the
   * three coefficient slots are updated and the coefficients descend; the second
   * moments stay non-negative and the two spare slots are untouched.
   */
  function AdamStep(s: Adam, g: Triple, i: nat, sqrt: real -> real): (r: Adam)
    requires NonnegativeRoot(sqrt) && MomentsNonnegative(s)
    ensures MomentsNonnegative(r)
    ensures forall j :: 3 <= j < 5 ==> r.m[j] == s.m[j] && r.v[j] == s.v[j]
  {
    AdamLanes(s, g, i, 3, sqrt)
  }

  /** The state after n updates of the loop when it never stops early. */
  function Trajectory(n: nat, gradient: Triple -> Triple, sqrt: real -> real): (r: Adam)
    requires NonnegativeRoot(sqrt)
    ensures MomentsNonnegative(r)
    ensures forall j :: 3 <= j < 5 ==> r.m[j] == 0.0 && r.v[j] == 0.0
  {
    if n == 0 then InitialAdam()
    else
      var s := Trajectory(n - 1, gradient, sqrt);
      AdamStep(s, gradient(s.coefficients), n - 1, sqrt)
  }

  /**
   * For each of the 16 iterations, whether the delta E measured at its start (before
   * its update) is below the threshold 1e-3, along the trajectory that never stops.
   */
  function ConvergedFlags(deltaE: Triple -> real, gradient: Triple -> Triple, sqrt: real -> real): seq<bool>
    requires NonnegativeRoot(sqrt)
  {
    seq(Iterations, k requires 0 <= k < Iterations => deltaE(Trajectory(k, gradient, sqrt).coefficients) < StopThreshold)
  }

  /**
   * The number of updates the loop makes from iteration i on: the update of an
   * iteration happens before its delta E test.
   */
  function UpdateCount(i: nat, converged: seq<bool>): nat
    requires |converged| == Iterations
    decreases Iterations - i
  {
    if i >= Iterations then Iterations
    else if converged[i] then i + 1
    else UpdateCount(i + 1, converged)
  }

  /**
   * From iteration i < 16 the loop makes between i + 1 and 16 updates; it stops early
   * exactly after the first iteration whose delta E is below the threshold.
   */
  lemma {:induction false} UpdateCountBounds(i: nat, converged: seq<bool>)
    requires |converged| == Iterations && i < Iterations
    ensures var n := UpdateCount(i, converged);
      i + 1 <= n <= Iterations &&
      (forall k :: i <= k < n - 1 ==> !converged[k]) &&
      (n < Iterations ==> converged[n - 1])
    decreases Iterations - i
  {
    if !converged[i] && i + 1 < Iterations {
      UpdateCountBounds(i + 1, converged);
    }
  }

  /** The body of the inner loop for slot j: the two moments, then the coefficient. */
  method AdamSlot(coefficients: array<real>, m: array<real>, v: array<real>, g: Triple, i: nat, j: nat,
                  sqrt: real -> real)
    requires coefficients.Length == 3 && m.Length == 5 && v.Length == 5 && j < 3
    requires coefficients != m && coefficients != v && m != v
    requires NonnegativeRoot(sqrt) && MomentsNonnegative(Adam(coefficients[..], m[..], v[..]))
    modifies coefficients, m, v
    ensures Adam(coefficients[..], m[..], v[..]) ==
      AdamLane(Adam(old(coefficients[..]), old(m[..]), old(v[..])), g, i, j, sqrt)
  {
    ghost var cur := Adam(coefficients[..], m[..], v[..]);
    m[j] := Beta1 * m[j] + (1.0 - Beta1) * g[j];
    v[j] := Beta2 * v[j] + (1.0 - Beta2) * (g[j] * g[j]);
    ghost var next := AdamLane(cur, g, i, j, sqrt);
    assert m[..] == next.m && v[..] == next.v;
    var mHat := MHat(m[j], i);
    var vHat := VHat(v[j], i);
    assert 0.0 <= sqrt(vHat);
    coefficients[j] := coefficients[j] - LearningRate * mHat / (sqrt(vHat) + AdamEpsilon);
    assert coefficients[..] == next.coefficients;
  }

  /** The inner `for j in 0..3` loop over the three coefficient slots. */
  method AdamUpdate(coefficients: array<real>, m: array<real>, v: array<real>, g: Triple, i: nat,
                    sqrt: real -> real)
    requires coefficients.Length == 3 && m.Length == 5 && v.Length == 5
    requires coefficients != m && coefficients != v && m != v
    requires NonnegativeRoot(sqrt) && forall j :: 0 <= j < 5 ==> v[j] >= 0.0
    modifies coefficients, m, v
    ensures Adam(coefficients[..], m[..], v[..]) ==
      AdamStep(Adam(old(coefficients[..]), old(m[..]), old(v[..])), g, i, sqrt)
  {
    ghost var s := Adam(coefficients[..], m[..], v[..]);
    for j := 0 to 3
      invariant Adam(coefficients[..], m[..], v[..]) == AdamLanes(s, g, i, j, sqrt)
    {
      AdamSlot(coefficients, m, v, g, i, j, sqrt);
    }
  }

  /** The starting coefficients [0.5, 0, -0.1] and the zeroed moment arrays. */
  method NewAdamArrays() returns (coefficients: array<real>, m: array<real>, v: array<real>)
    ensures fresh(coefficients) && fresh(m) && fresh(v)
    ensures coefficients.Length == 3 && m.Length == 5 && v.Length == 5
    ensures coefficients != m && coefficients != v && m != v
    ensures Adam(coefficients[..], m[..], v[..]) == InitialAdam()
  {
    coefficients := new real[3];
    coefficients[0], coefficients[1], coefficients[2] := 0.5, 0.0, -0.1;
    m := new real[5](_ => 0.0);
    v := new real[5](_ => 0.0);
    assert coefficients[..] == [0.5, 0.0, -0.1];
    assert m[..] == [0.0, 0.0, 0.0, 0.0, 0.0] && v[..] == [0.0, 0.0, 0.0, 0.0, 0.0];
  }

  /**
   * `calculate_coefficients`: up to 16 Adam updates from [0.5, 0, -0.1], leaving the
   * loop after the first update whose prior delta E is below 1e-3. `deltaE` and
   * `gradient` are `eval_delta_e` and `eval_gradient` for the target colour, and
   * `sqrt` is the square root.
   */
  method CalculateCoefficients(deltaE: Triple -> real, gradient: Triple -> Triple, sqrt: real -> real)
    returns (c: Triple)
    requires NonnegativeRoot(sqrt)
    ensures c == Trajectory(UpdateCount(0, ConvergedFlags(deltaE, gradient, sqrt)), gradient, sqrt).coefficients
  {
    ghost var converged := ConvergedFlags(deltaE, gradient, sqrt);
    var coefficients, m, v := NewAdamArrays();
    for i := 0 to Iterations
      invariant Adam(coefficients[..], m[..], v[..]) == Trajectory(i, gradient, sqrt)
      invariant UpdateCount(i, converged) == UpdateCount(0, converged)
    {
      var e := deltaE(coefficients[..]);
      assert converged[i] == (e < StopThreshold);
      var g := gradient(coefficients[..]);
      AdamUpdate(coefficients, m, v, g, i, sqrt);
      assert Adam(coefficients[..], m[..], v[..]) == Trajectory(i + 1, gradient, sqrt);
      if e < StopThreshold {
        return coefficients[..];
      }
    }
    c := coefficients[..];
  }
}
