/**
 * A spectrum given by knots: wavelengths `lambdas` with one value each, linearly
 * interpolated between knots and zero outside them. Reals stand in for f32.
 */
module PiecewiseLinearSpectra {

  datatype PiecewiseLinear = PiecewiseLinear(lambdas: seq<real>, values: seq<real>)

  /** A constructor either builds the spectrum or fails its `assert_eq!`. */
  datatype Built = Ok(spectrum: PiecewiseLinear) | AssertionFailed

  /**
   * A lookup either gives a value, indexes past the knots or the values (a panic),
   * or divides by a zero-width segment, which in f32 gives an infinity or NaN.
   */
  datatype Sample = Sampled(v: real) | OutOfBounds | NonFinite

  /** `new` and `from_lambda_and_value`: the two sequences, which must have equal lengths. */
  function New(lambdas: seq<real>, values: seq<real>): (r: Built)
    ensures r.Ok? <==> |lambdas| == |values|
    ensures r.Ok? ==> r.spectrum.lambdas == lambdas && r.spectrum.values == values
  {
    if |lambdas| == |values| then Ok(PiecewiseLinear(lambdas, values)) else AssertionFailed
  }

  /** The pairs (lambda, value) laid out one after the other. */
  function Interleave(lambdas: seq<real>, values: seq<real>): (r: seq<real>)
    requires |lambdas| == |values|
    ensures |r| == 2 * |lambdas|
  {
    if |lambdas| == 0 then [] else [lambdas[0], values[0]] + Interleave(lambdas[1..], values[1..])
  }

  /** The fold of `from_interleaved`: the even positions become wavelengths, the odd ones values. */
  function Deinterleave(xs: seq<real>): (r: (seq<real>, seq<real>))
    requires |xs| % 2 == 0
    ensures |r.0| == |xs| / 2 && |r.1| == |xs| / 2
    ensures forall k :: 0 <= k < |xs| / 2 ==> r.0[k] == xs[2 * k] && r.1[k] == xs[2 * k + 1]
  {
    (seq(|xs| / 2, k requires 0 <= k < |xs| / 2 => xs[2 * k]),
     seq(|xs| / 2, k requires 0 <= k < |xs| / 2 => xs[2 * k + 1]))
  }

  /** `from_interleaved` without normalisation: an odd length fails the assertion. */
  function FromInterleaved(xs: seq<real>): (r: Built)
    ensures r.Ok? <==> |xs| % 2 == 0
    ensures r.Ok? ==> |r.spectrum.lambdas| == |r.spectrum.values| == |xs| / 2
  {
    if |xs| % 2 != 0 then AssertionFailed
    else
      var (lambdas, values) := Deinterleave(xs);
      Ok(PiecewiseLinear(lambdas, values))
  }

  /** Splitting an interleaved sequence and laying it out again gives it back. */
  lemma {:induction false} InterleaveDeinterleave(xs: seq<real>)
    requires |xs| % 2 == 0
    ensures Interleave(Deinterleave(xs).0, Deinterleave(xs).1) == xs
    decreases |xs|
  {
    if |xs| > 0 {
      InterleaveDeinterleave(xs[2..]);
      var d, e := Deinterleave(xs), Deinterleave(xs[2..]);
      assert d.0[1..] == e.0 by {
        forall k | 0 <= k < |e.0| ensures d.0[1..][k] == e.0[k] {
          assert xs[2..][2 * k] == xs[2 * (k + 1)];
        }
      }
      assert d.1[1..] == e.1 by {
        forall k | 0 <= k < |e.1| ensures d.1[1..][k] == e.1[k] {
          assert xs[2..][2 * k + 1] == xs[2 * (k + 1) + 1];
        }
      }
      assert xs == [xs[0], xs[1]] + xs[2..];
    }
  }

  /** `from_interleaved` keeps every pair: interleaving its result gives the input. */
  lemma FromInterleavedRoundTrip(xs: seq<real>)
    requires |xs| % 2 == 0
    ensures FromInterleaved(xs).Ok?
    ensures Interleave(FromInterleaved(xs).spectrum.lambdas, FromInterleaved(xs).spectrum.values) == xs
  {
    InterleaveDeinterleave(xs);
  }

  // ---------------------------------------------------------------------------
  // value

  /** The segment the `value` loop stops at: the first i with lambdas[i + 1] >= lambda, or the last knot. */
  function SegmentIndex(lambdas: seq<real>, lambda: real, i: nat): (r: nat)
    requires 0 < |lambdas| && i <= |lambdas| - 1
    ensures i <= r <= |lambdas| - 1
    ensures !(r < |lambdas| - 1 && lambdas[r + 1] < lambda)
    ensures forall j :: i < j <= r ==> lambdas[j] < lambda
    decreases |lambdas| - i
  {
    if i < |lambdas| - 1 && lambdas[i + 1] < lambda then SegmentIndex(lambdas, lambda, i + 1) else i
  }

  function Interpolate(v0: real, v1: real, t: real): real
  {
    v0 * (1.0 - t) + v1 * t
  }

  /** What `value` computes for a wavelength. */
  function ValueAt(s: PiecewiseLinear, lambda: real): Sample
  {
    var l := s.lambdas;
    if |l| == 0 || lambda < l[0] || lambda > l[|l| - 1] then Sampled(0.0)
    else
      var i := SegmentIndex(l, lambda, 0);
      if i + 1 >= |l| then OutOfBounds
      else if i + 1 >= |s.values| then OutOfBounds
      else if l[i + 1] - l[i] == 0.0 then NonFinite
      else Sampled(Interpolate(s.values[i], s.values[i + 1], (lambda - l[i]) / (l[i + 1] - l[i])))
  }

  /** `value`: range checks, then the linear scan for the segment, then the interpolation. */
  method Value(s: PiecewiseLinear, lambda: real) returns (r: Sample)
    ensures r == ValueAt(s, lambda)
  {
    var l := s.lambdas;
    if |l| == 0 {
      return Sampled(0.0);
    }
    if lambda < l[0] || lambda > l[|l| - 1] {
      return Sampled(0.0);
    }
    var i := 0;
    while i < |l| - 1 && l[i + 1] < lambda
      invariant 0 <= i <= |l| - 1
      invariant SegmentIndex(l, lambda, i) == SegmentIndex(l, lambda, 0)
    {
      i := i + 1;
    }
    assert SegmentIndex(l, lambda, i) == i;
    if i + 1 >= |l| {
      return OutOfBounds;
    }
    if i + 1 >= |s.values| {
      return OutOfBounds;
    }
    if l[i + 1] - l[i] == 0.0 {
      return NonFinite;
    }
    var t := (lambda - l[i]) / (l[i + 1] - l[i]);
    r := Sampled(Interpolate(s.values[i], s.values[i + 1], t));
  }

  predicate StrictlyIncreasing(l: seq<real>)
  {
    forall j, k :: 0 <= j < k < |l| ==> l[j] < l[k]
  }

  /** Outside the knots, and for a spectrum without knots, the value is zero. */
  lemma ValueOutsideIsZero(s: PiecewiseLinear, lambda: real)
    requires |s.lambdas| == 0 || lambda < s.lambdas[0] || lambda > s.lambdas[|s.lambdas| - 1]
    ensures ValueAt(s, lambda) == Sampled(0.0)
  {
  }

  /** A spectrum with one knot reads past its wavelengths exactly at that knot. */
  lemma SingleKnotAtKnot(s: PiecewiseLinear, lambda: real)
    requires |s.lambdas| == 1
    ensures ValueAt(s, lambda) == if lambda == s.lambdas[0] then OutOfBounds else Sampled(0.0)
  {
  }

  lemma {:induction false} SegmentAtKnot(l: seq<real>, k: nat, i: nat)
    requires StrictlyIncreasing(l) && 2 <= |l| && 0 < k < |l| && i <= k - 1
    ensures SegmentIndex(l, l[k], i) == k - 1
    decreases k - i
  {
    if i < k - 1 {
      assert l[i + 1] < l[k];
      SegmentAtKnot(l, k, i + 1);
    }
  }

  /** For strictly increasing knots, the value at a knot is that knot's value. */
  lemma ValueAtKnot(s: PiecewiseLinear, k: nat)
    requires StrictlyIncreasing(s.lambdas) && 2 <= |s.lambdas| && |s.values| == |s.lambdas| && k < |s.lambdas|
    ensures ValueAt(s, s.lambdas[k]) == Sampled(s.values[k])
  {
    var l := s.lambdas;
    assert l[0] <= l[k] <= l[|l| - 1] by {
      if 0 < k { assert l[0] < l[k]; }
      if k < |l| - 1 { assert l[k] < l[|l| - 1]; }
    }
    if k == 0 {
      assert l[0] < l[1];
      ValueAtSegmentStart(s, 0);
    } else {
      SegmentAtKnot(l, k, 0);
      assert l[k - 1] < l[k];
      ValueAtSegmentEnd(s, k);
    }
  }

  /** At the start of the segment the search stops at, the value is the start's value. */
  lemma ValueAtSegmentStart(s: PiecewiseLinear, k: nat)
    requires k + 1 < |s.lambdas| && |s.values| == |s.lambdas|
    requires s.lambdas[0] <= s.lambdas[k] <= s.lambdas[|s.lambdas| - 1]
    requires SegmentIndex(s.lambdas, s.lambdas[k], 0) == k && s.lambdas[k] < s.lambdas[k + 1]
    ensures ValueAt(s, s.lambdas[k]) == Sampled(s.values[k])
  {
    var l := s.lambdas;
    assert (l[k] - l[k]) / (l[k + 1] - l[k]) == 0.0;
  }

  /** At the end of the segment the search stops at, the value is the end's value. */
  lemma ValueAtSegmentEnd(s: PiecewiseLinear, k: nat)
    requires 0 < k < |s.lambdas| && |s.values| == |s.lambdas|
    requires s.lambdas[0] <= s.lambdas[k] <= s.lambdas[|s.lambdas| - 1]
    requires SegmentIndex(s.lambdas, s.lambdas[k], 0) == k - 1 && s.lambdas[k - 1] < s.lambdas[k]
    ensures ValueAt(s, s.lambdas[k]) == Sampled(s.values[k])
  {
    var l := s.lambdas;
    QuotientOfEqual(l[k] - l[k - 1]);
  }

  lemma QuotientOfEqual(d: real)
    requires d != 0.0
    ensures d / d == 1.0
  {
  }

  lemma ConvexCombination(v0: real, v1: real, t: real)
    requires 0.0 <= t <= 1.0
    ensures v0 <= v1 ==> v0 <= Interpolate(v0, v1, t) <= v1
    ensures v1 <= v0 ==> v1 <= Interpolate(v0, v1, t) <= v0
  {
    var w := v1 - v0;
    assert Interpolate(v0, v1, t) == v0 + t * w;
    if w >= 0.0 {
      ScaledBelow(t, w);
    } else {
      ScaledBelow(t, -w);
    }
  }

  lemma ScaledBelow(t: real, w: real)
    requires 0.0 <= t <= 1.0 && 0.0 <= w
    ensures 0.0 <= t * w <= w
  {
    assert w - t * w == (1.0 - t) * w;
    assert (1.0 - t) * w >= 0.0;
  }

  lemma FractionInUnit(a: real, b: real)
    requires 0.0 <= a <= b && 0.0 < b
    ensures 0.0 <= a / b <= 1.0
  {
  }

  /**
   * For strictly increasing knots, a wavelength inside them gets a value between
   * the values of the knots around it.
   */
  lemma ValueBetweenNeighbours(s: PiecewiseLinear, lambda: real)
    requires StrictlyIncreasing(s.lambdas) && 2 <= |s.lambdas| && |s.values| == |s.lambdas|
    requires s.lambdas[0] <= lambda <= s.lambdas[|s.lambdas| - 1]
    ensures var i := SegmentIndex(s.lambdas, lambda, 0);
      i + 1 < |s.lambdas| && s.lambdas[i] <= lambda <= s.lambdas[i + 1] &&
      ValueAt(s, lambda).Sampled? &&
      (s.values[i] <= s.values[i + 1] ==> s.values[i] <= ValueAt(s, lambda).v <= s.values[i + 1]) &&
      (s.values[i + 1] <= s.values[i] ==> s.values[i + 1] <= ValueAt(s, lambda).v <= s.values[i])
  {
    var l := s.lambdas;
    var i := SegmentIndex(l, lambda, 0);
    assert i + 1 < |l|;
    assert l[i] < l[i + 1];
    assert l[i] <= lambda by {
      if i > 0 { assert l[i] < lambda; }
    }
    FractionInUnit(lambda - l[i], l[i + 1] - l[i]);
    ConvexCombination(s.values[i], s.values[i + 1], (lambda - l[i]) / (l[i + 1] - l[i]));
  }

  // ---------------------------------------------------------------------------
  // max_value

  /** `max_value`: the largest value, or 0 when there are none. */
  function MaxValue(values: seq<real>): (r: real)
    ensures |values| == 0 ==> r == 0.0
    ensures |values| > 0 ==> (exists k :: 0 <= k < |values| && r == values[k])
    ensures forall k :: 0 <= k < |values| ==> values[k] <= r
  {
    if |values| == 0 then 0.0
    else if |values| == 1 then values[0]
    else
      var rest := MaxValue(values[1..]);
      assert forall k :: 1 <= k < |values| ==> values[k] == values[1..][k - 1];
      if values[0] > rest then values[0]
      else
        assert exists k :: 0 <= k < |values| - 1 && rest == values[1..][k];
        var k :| 0 <= k < |values| - 1 && rest == values[1..][k];
        assert rest == values[k + 1];
        rest
  }
}
