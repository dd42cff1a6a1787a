/**
 * Axis-aligned bounding boxes (math/src/bounds.rs): merge, centre, surface
 * area, corners and the ray slab test.
 */
module MathBounds {
  import opened Vectors
  import opened Basics

  datatype Bounds = Bounds(min: Vec3, max: Vec3)

  /** The hit interval reported by the slab test. */
  datatype BoundsIntersection = BoundsIntersection(t0: real, t1: real)

  /** A box whose minimum corner is below its maximum corner on every axis. */
  predicate WellFormed(b: Bounds) { LessEq(b.min, b.max) }

  predicate Inside(p: Vec3, b: Bounds) { LessEq(b.min, p) && LessEq(p, b.max) }

  /** `outer` contains every point of `inner`. */
  predicate Encloses(outer: Bounds, inner: Bounds)
  {
    LessEq(outer.min, inner.min) && LessEq(inner.max, outer.max)
  }

  /** A point each of whose coordinates is taken from the minimum or the maximum corner. */
  predicate IsCorner(p: Vec3, b: Bounds)
  {
    (p.x == b.min.x || p.x == b.max.x) &&
    (p.y == b.min.y || p.y == b.max.y) &&
    (p.z == b.min.z || p.z == b.max.z)
  }

  /** `Bounds::merge`: the lane-wise min of the minima and max of the maxima. */
  function Merge(a: Bounds, b: Bounds): (r: Bounds)
    ensures Encloses(r, a) && Encloses(r, b)
    ensures WellFormed(a) ==> WellFormed(r)
  {
    Bounds(Min(a.min, b.min), Max(a.max, b.max))
  }

  /** The merged box is the least box enclosing both inputs. */
  lemma MergeLeast(a: Bounds, b: Bounds, c: Bounds)
    requires Encloses(c, a) && Encloses(c, b)
    ensures Encloses(c, Merge(a, b))
  {
  }

  lemma MergeCommutative(a: Bounds, b: Bounds)
    ensures Merge(a, b) == Merge(b, a)
  {
  }

  lemma MergeIdempotent(a: Bounds)
    ensures Merge(a, a) == a
  {
  }

  lemma MergeAssociative(a: Bounds, b: Bounds, c: Bounds)
    ensures Merge(Merge(a, b), c) == Merge(a, Merge(b, c))
  {
  }

  /** `Bounds::center`: equidistant from both corners and inside a well-formed box. */
  function Center(b: Bounds): (r: Vec3)
    ensures Sub(r, b.min) == Sub(b.max, r)
    ensures WellFormed(b) ==> Inside(r, b)
  {
    Scale(Add(b.min, b.max), 0.5)
  }

  /** `Bounds::area`: the surface area 2(dx dy + dx dz + dy dz). */
  function Area(b: Bounds): real
  {
    var d := Sub(b.max, b.min);
    2.0 * (d.x * d.y + d.x * d.z + d.y * d.z)
  }

  lemma ProductMonotone(a: real, b: real, c: real, d: real)
    requires 0.0 <= a <= c && 0.0 <= b <= d
    ensures a * b <= c * d
  {
    assert a * b <= c * b;
    assert c * b <= c * d;
  }

  /** The surface area of a well-formed box is never negative. */
  lemma AreaNonnegative(b: Bounds)
    requires WellFormed(b)
    ensures Area(b) >= 0.0
  {
    var d := Sub(b.max, b.min);
    ProductNonnegative(d.x, d.y);
    ProductNonnegative(d.x, d.z);
    ProductNonnegative(d.y, d.z);
  }

  /** A well-formed box inside another has at most the other's surface area. */
  lemma AreaMonotone(inner: Bounds, outer: Bounds)
    requires WellFormed(inner) && Encloses(outer, inner)
    ensures Area(inner) <= Area(outer)
  {
    var d, e := Sub(inner.max, inner.min), Sub(outer.max, outer.min);
    ProductMonotone(d.x, d.y, e.x, e.y);
    ProductMonotone(d.x, d.z, e.x, e.z);
    ProductMonotone(d.y, d.z, e.y, e.z);
  }

  /** `Bounds::vertices`: the eight corners, x varying fastest, then y, then z. */
  function Vertices(b: Bounds): (r: seq<Vec3>)
    ensures |r| == 8
    ensures forall k :: 0 <= k < 8 ==> IsCorner(r[k], b)
    ensures WellFormed(b) ==> forall k :: 0 <= k < 8 ==> Inside(r[k], b)
    ensures b.min.x < b.max.x && b.min.y < b.max.y && b.min.z < b.max.z ==>
              forall j, k :: 0 <= j < k < 8 ==> r[j] != r[k]
  {
    var mn, mx := b.min, b.max;
    [ Vec3(mn.x, mn.y, mn.z), Vec3(mx.x, mn.y, mn.z), Vec3(mn.x, mx.y, mn.z), Vec3(mx.x, mx.y, mn.z),
      Vec3(mn.x, mn.y, mx.z), Vec3(mx.x, mn.y, mx.z), Vec3(mn.x, mx.y, mx.z), Vec3(mx.x, mx.y, mx.z) ]
  }

  /** Every corner of a box appears among `Vertices`. */
  lemma VerticesComplete(b: Bounds, p: Vec3)
    requires IsCorner(p, b)
    ensures p in Vertices(b)
  {
    var vs := Vertices(b);
    var k := (if p.x == b.min.x then 0 else 1) + (if p.y == b.min.y then 0 else 2) + (if p.z == b.min.z then 0 else 4);
    assert vs[k] == p;
  }

  // ---------------------------------------------------------------------------
  // The slab test

  /** The parameter at which the ray crosses the plane at `plane` on one axis. */
  function Crossing(plane: real, o: real, inv: real): real { (plane - o) * inv }

  /** The entry and exit parameters of the ray on axis `i`, ordered (the swap in the source). */
  function SlabNear(b: Bounds, origin: Vec3, invDir: Vec3, i: nat): real
    requires i < 3
  {
    MinReal(Crossing(Get(b.min, i), Get(origin, i), Get(invDir, i)), Crossing(Get(b.max, i), Get(origin, i), Get(invDir, i)))
  }

  function SlabFar(b: Bounds, origin: Vec3, invDir: Vec3, i: nat): real
    requires i < 3
  {
    MaxReal(Crossing(Get(b.min, i), Get(origin, i), Get(invDir, i)), Crossing(Get(b.max, i), Get(origin, i), Get(invDir, i)))
  }

  /**
   * The state of the slab loop at axis `i` with the running interval [t0, t1]:
   * each axis narrows the interval, and an empty interval stops the loop with None.
   */
  function SlabFrom(b: Bounds, origin: Vec3, invDir: Vec3, i: nat, t0: real, t1: real): Option<BoundsIntersection>
    requires i <= 3
    decreases 3 - i
  {
    if i == 3 then Some(BoundsIntersection(t0, t1))
    else
      var near, far := SlabNear(b, origin, invDir, i), SlabFar(b, origin, invDir, i);
      var t0', t1' := if near > t0 then near else t0, if far < t1 then far else t1;
      if t0' > t1' then None else SlabFrom(b, origin, invDir, i + 1, t0', t1')
  }

  /** `Bounds::intersect` as a loop over the three axes. */
  method Intersect(b: Bounds, origin: Vec3, tMax: real, invDir: Vec3) returns (r: Option<BoundsIntersection>)
    ensures r == SlabFrom(b, origin, invDir, 0, 0.0, tMax)
    ensures r.Some? ==> 0.0 <= r.value.t0 <= r.value.t1 <= tMax
  {
    var t0, t1 := 0.0, tMax;
    for i := 0 to 3
      invariant 0.0 <= t0 && t1 <= tMax && (i > 0 ==> t0 <= t1)
      invariant SlabFrom(b, origin, invDir, 0, 0.0, tMax) == SlabFrom(b, origin, invDir, i, t0, t1)
    {
      var tNear := Crossing(Get(b.min, i), Get(origin, i), Get(invDir, i));
      var tFar := Crossing(Get(b.max, i), Get(origin, i), Get(invDir, i));
      if tNear > tFar {
        tNear, tFar := tFar, tNear;
      }
      assert tNear == SlabNear(b, origin, invDir, i) && tFar == SlabFar(b, origin, invDir, i);
      ghost var rest := SlabFrom(b, origin, invDir, i, t0, t1);
      t0 := if tNear > t0 then tNear else t0;
      t1 := if tFar < t1 then tFar else t1;
      if t0 > t1 {
        assert rest == None;
        return None;
      }
      assert rest == SlabFrom(b, origin, invDir, i + 1, t0, t1);
    }
    return Some(BoundsIntersection(t0, t1));
  }

  /** The point reached at parameter t along the ray. */
  function At(origin: Vec3, dir: Vec3, t: real): Vec3 { Add(origin, Scale(dir, t)) }

  /** `invDir` is the lane-wise reciprocal of a direction with no zero lane. */
  predicate Reciprocal(dir: Vec3, invDir: Vec3)
  {
    dir.x * invDir.x == 1.0 && dir.y * invDir.y == 1.0 && dir.z * invDir.z == 1.0
  }

  lemma MulMonotone(a: real, b: real, c: real)
    requires c > 0.0
    ensures a <= b <==> a * c <= b * c
  {
    if a <= b { assert (b - a) * c >= 0.0; } else { assert (a - b) * c > 0.0; }
  }

  /** One side of one slab: multiplying by the reciprocal turns a position bound into a parameter bound. */
  lemma SlabSide(lo: real, o: real, d: real, inv: real, t: real)
    requires d * inv == 1.0
    ensures inv > 0.0 ==> (lo <= o + t * d <==> (lo - o) * inv <= t) && (o + t * d <= lo <==> t <= (lo - o) * inv)
    ensures inv < 0.0 ==> (lo <= o + t * d <==> t <= (lo - o) * inv) && (o + t * d <= lo <==> (lo - o) * inv <= t)
  {
    var q := o + t * d - o;
    assert q * inv == t by {
      assert q == t * d;
      assert (t * d) * inv == t * (d * inv);
    }
    if inv > 0.0 {
      MulMonotone(lo - o, q, inv);
      MulMonotone(q, lo - o, inv);
    } else if inv < 0.0 {
      MulMonotone(lo - o, q, -inv);
      MulMonotone(q, lo - o, -inv);
      assert (lo - o) * -inv == -((lo - o) * inv);
      assert q * -inv == -t;
    }
  }

  /** One axis of the slab test: the point is within the slab exactly between the ordered crossings. */
  lemma SlabAxis(lo: real, hi: real, o: real, d: real, inv: real, t: real)
    requires lo <= hi && d * inv == 1.0
    ensures lo <= o + t * d <= hi <==>
              MinReal(Crossing(lo, o, inv), Crossing(hi, o, inv)) <= t <= MaxReal(Crossing(lo, o, inv), Crossing(hi, o, inv))
  {
    SlabSide(lo, o, d, inv, t);
    SlabSide(hi, o, d, inv, t);
    assert inv != 0.0;
    if inv > 0.0 {
      MulMonotone(lo - o, hi - o, inv);
    } else {
      MulMonotone(lo - o, hi - o, -inv);
      assert (lo - o) * -inv == -((lo - o) * inv);
      assert (hi - o) * -inv == -((hi - o) * inv);
    }
  }

  lemma Commute(a: real, b: real)
    ensures a * b == b * a
  {
  }

  lemma SlabAxisAt(b: Bounds, origin: Vec3, dir: Vec3, invDir: Vec3, i: nat, t: real)
    requires i < 3 && WellFormed(b) && Reciprocal(dir, invDir)
    ensures Get(b.min, i) <= Get(At(origin, dir, t), i) <= Get(b.max, i) <==>
              SlabNear(b, origin, invDir, i) <= t <= SlabFar(b, origin, invDir, i)
  {
    var o, d := Get(origin, i), Get(dir, i);
    assert Get(At(origin, dir, t), i) == o + d * t && d * Get(invDir, i) == 1.0 by {
      if i == 0 {
      } else if i == 1 {
      } else {
      }
    }
    Commute(d, t);
    SlabAxis(Get(b.min, i), Get(b.max, i), o, d, Get(invDir, i), t);
  }

  /**
   * The slab test from axis i decides exactly whether some t in [t0, t1] reaches the
   * box on the remaining axes: every t in a reported interval does, and every such t
   * lies in the reported interval.
   */
  lemma {:induction false} SlabFromExact(b: Bounds, origin: Vec3, dir: Vec3, invDir: Vec3, i: nat, t0: real, t1: real, t: real)
    requires i <= 3 && WellFormed(b) && Reciprocal(dir, invDir)
    ensures (t0 <= t <= t1 && forall j :: i <= j < 3 ==> Get(b.min, j) <= Get(At(origin, dir, t), j) <= Get(b.max, j))
            <==>
            (SlabFrom(b, origin, invDir, i, t0, t1).Some? &&
             SlabFrom(b, origin, invDir, i, t0, t1).value.t0 <= t <= SlabFrom(b, origin, invDir, i, t0, t1).value.t1)
    decreases 3 - i
  {
    if i < 3 {
      var near, far := SlabNear(b, origin, invDir, i), SlabFar(b, origin, invDir, i);
      var t0', t1' := if near > t0 then near else t0, if far < t1 then far else t1;
      SlabAxisAt(b, origin, dir, invDir, i, t);
      SlabFromExact(b, origin, dir, invDir, i + 1, t0', t1', t);
      if t0' > t1' {
        assert !(t0 <= t <= t1 && near <= t <= far);
      }
    }
  }

  lemma InsideByAxes(p: Vec3, b: Bounds)
    ensures Inside(p, b) <==> forall j :: 0 <= j < 3 ==> Get(b.min, j) <= Get(p, j) <= Get(b.max, j)
  {
    assert Get(b.min, 0) <= Get(p, 0) <= Get(b.max, 0) <==> b.min.x <= p.x <= b.max.x;
    assert Get(b.min, 1) <= Get(p, 1) <= Get(b.max, 1) <==> b.min.y <= p.y <= b.max.y;
    assert Get(b.min, 2) <= Get(p, 2) <= Get(b.max, 2) <==> b.min.z <= p.z <= b.max.z;
  }

  /**
   * For a well-formed box and invDir the reciprocal of dir, the slab test reports
   * exactly the parameters t in [0, tMax] at which the ray is inside the box.
   */
  lemma SlabTestExact(b: Bounds, origin: Vec3, dir: Vec3, invDir: Vec3, tMax: real, t: real)
    requires WellFormed(b) && Reciprocal(dir, invDir)
    ensures (0.0 <= t <= tMax && Inside(At(origin, dir, t), b)) <==>
            (SlabFrom(b, origin, invDir, 0, 0.0, tMax).Some? &&
             SlabFrom(b, origin, invDir, 0, 0.0, tMax).value.t0 <= t <= SlabFrom(b, origin, invDir, 0, 0.0, tMax).value.t1)
  {
    InsideByAxes(At(origin, dir, t), b);
    SlabFromExact(b, origin, dir, invDir, 0, 0.0, tMax, t);
  }
}
