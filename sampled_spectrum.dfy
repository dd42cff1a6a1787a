/**
 * Spectra sampled at the four wavelengths of a path: `SampledSpectrum` (one
 * intensity per wavelength) and `SampledWavelengths` (the wavelengths and their
 * sampling densities). Both wrap fixed-size arrays that the operators change in
 * place; reals stand in for f32.
 */
module SampledSpectra {
  import opened Basics

  /** `N_SPECTRUM_SAMPLES`. */
  const N: nat := 4

  /** `LAMBDA_MIN` and `LAMBDA_MAX` of the spectrum crate, in nanometres. */
  const LambdaMin: real := 360.0
  const LambdaMax: real := 830.0

  // ---------------------------------------------------------------------------
  // The values of a spectrum, as sequences of length N

  function ConstantValues(v: real): (r: seq<real>)
    ensures |r| == N && forall i :: 0 <= i < N ==> r[i] == v
  {
    seq(N, _ => v)
  }

  predicate AllZero(v: seq<real>)
  {
    forall i :: 0 <= i < |v| ==> v[i] == 0.0
  }

  /** `is_constant`: every value equals the first. */
  predicate AllEqualFirst(v: seq<real>)
    requires |v| == N
  {
    forall i :: 0 <= i < N ==> v[i] == v[0]
  }

  /**
   * `Div<f32>`: every value divided by s, and the zero spectrum when s is zero.
   * Otherwise multiplying the result back by s recovers the input.
   */
  function DivScalar(v: seq<real>, s: real): (r: seq<real>)
    requires |v| == N
    ensures |r| == N
    ensures s == 0.0 ==> AllZero(r)
    ensures s != 0.0 ==> forall i :: 0 <= i < N ==> r[i] * s == v[i]
  {
    var r := seq(N, i requires 0 <= i < N => if s == 0.0 then 0.0 else v[i] / s);
    assert s != 0.0 ==> forall i :: 0 <= i < N ==> r[i] * s == v[i] by {
      if s != 0.0 {
        forall i | 0 <= i < N ensures r[i] * s == v[i] {
          QuotientTimesDivisor(v[i], s);
        }
      }
    }
    r
  }

  /**
   * `Div<SampledSpectrum>` and `DivAssign<SampledSpectrum>`: componentwise, with 0
   * wherever the divisor component is 0.
   */
  function DivComponents(v: seq<real>, w: seq<real>): (r: seq<real>)
    requires |v| == N && |w| == N
    ensures |r| == N
    ensures forall i :: 0 <= i < N ==> (w[i] == 0.0 ==> r[i] == 0.0) && (w[i] != 0.0 ==> r[i] * w[i] == v[i])
  {
    var r := seq(N, i requires 0 <= i < N => if w[i] == 0.0 then 0.0 else v[i] / w[i]);
    assert forall i :: 0 <= i < N ==> (w[i] != 0.0 ==> r[i] * w[i] == v[i]) by {
      forall i | 0 <= i < N && w[i] != 0.0 ensures r[i] * w[i] == v[i] {
        QuotientTimesDivisor(v[i], w[i]);
      }
    }
    r
  }

  /**
   * `DivAssign<f32>` as written: for a zero divisor it builds a fresh zero spectrum
   * and discards it, so the values stay as they were.
   */
  function DivAssignScalarAsWritten(v: seq<real>, s: real): (r: seq<real>)
    requires |v| == N
    ensures |r| == N
    ensures s == 0.0 ==> r == v
    ensures s != 0.0 ==> r == DivScalar(v, s)
  {
    if s == 0.0 then v else DivScalar(v, s)
  }

  /** The in-place division by zero disagrees with `/` on any nonzero spectrum. */
  lemma DivAssignByZeroKeepsValues()
    ensures DivAssignScalarAsWritten(ConstantValues(1.0), 0.0) == ConstantValues(1.0)
    ensures DivScalar(ConstantValues(1.0), 0.0) != ConstantValues(1.0)
  {
    assert DivScalar(ConstantValues(1.0), 0.0)[0] == 0.0;
  }

  function Scale(v: seq<real>, t: real): (r: seq<real>)
    requires |v| == N
    ensures |r| == N && forall i :: 0 <= i < N ==> r[i] == v[i] * t
  {
    seq(N, i requires 0 <= i < N => v[i] * t)
  }

  function Add(v: seq<real>, w: seq<real>): (r: seq<real>)
    requires |v| == N && |w| == N
    ensures |r| == N && forall i :: 0 <= i < N ==> r[i] == v[i] + w[i]
  {
    seq(N, i requires 0 <= i < N => v[i] + w[i])
  }

  /** Lanewise addition is commutative and associative, with the zero spectrum as its unit. */
  lemma AddAlgebra(u: seq<real>, v: seq<real>, w: seq<real>)
    requires |u| == N && |v| == N && |w| == N
    ensures Add(v, w) == Add(w, v)
    ensures Add(Add(u, v), w) == Add(u, Add(v, w))
    ensures Add(v, ConstantValues(0.0)) == v
  {
    assert Add(v, w) == Add(w, v);
    assert Add(Add(u, v), w) == Add(u, Add(v, w));
    assert Add(v, ConstantValues(0.0)) == v;
  }

  /** Scaling twice scales by the product, scaling by 1 changes nothing, and scaling distributes over addition. */
  lemma ScaleAlgebra(v: seq<real>, w: seq<real>, a: real, b: real)
    requires |v| == N && |w| == N
    ensures Scale(Scale(v, a), b) == Scale(v, a * b)
    ensures Scale(v, 1.0) == v
    ensures Scale(Add(v, w), a) == Add(Scale(v, a), Scale(w, a))
    ensures Add(Scale(v, a), Scale(v, b)) == Scale(v, a + b)
  {
    forall i | 0 <= i < N
      ensures Scale(Scale(v, a), b)[i] == Scale(v, a * b)[i]
      ensures Scale(Add(v, w), a)[i] == Add(Scale(v, a), Scale(w, a))[i]
      ensures Add(Scale(v, a), Scale(v, b))[i] == Scale(v, a + b)[i]
    {
      assert (v[i] * a) * b == v[i] * (a * b);
      assert (v[i] + w[i]) * a == v[i] * a + w[i] * a;
      assert v[i] * a + v[i] * b == v[i] * (a + b);
    }
    assert Scale(v, 1.0) == v;
  }

  /** Sums and multiples of constant spectra are the constant spectra of the sums and multiples. */
  lemma ConstantArithmetic(a: real, b: real)
    ensures Add(ConstantValues(a), ConstantValues(b)) == ConstantValues(a + b)
    ensures Scale(ConstantValues(a), b) == ConstantValues(a * b)
  {
    forall i | 0 <= i < N
      ensures Add(ConstantValues(a), ConstantValues(b))[i] == ConstantValues(a + b)[i]
      ensures Scale(ConstantValues(a), b)[i] == ConstantValues(a * b)[i]
    {
    }
  }

  /** `lerp`: self * t + other * (1 - t). */
  function Lerp(self: seq<real>, other: seq<real>, t: real): seq<real>
    requires |self| == N && |other| == N
  {
    Add(Scale(self, t), Scale(other, 1.0 - t))
  }

  /** At t = 1 lerp gives self, at t = 0 it gives other, and it keeps constant spectra constant. */
  lemma LerpProperties(self: seq<real>, other: seq<real>, t: real, a: real, b: real)
    requires |self| == N && |other| == N
    ensures Lerp(self, other, 1.0) == self && Lerp(self, other, 0.0) == other
    ensures Lerp(ConstantValues(a), ConstantValues(b), t) == ConstantValues(a * t + b * (1.0 - t))
  {
    assert Lerp(self, other, 1.0) == self;
    assert Lerp(self, other, 0.0) == other;
    var c := Lerp(ConstantValues(a), ConstantValues(b), t);
    var d := ConstantValues(a * t + b * (1.0 - t));
    forall i | 0 <= i < N
      ensures c[i] == d[i]
    {
      assert Scale(ConstantValues(a), t)[i] == a * t;
      assert Scale(ConstantValues(b), 1.0 - t)[i] == b * (1.0 - t);
    }
  }

  /** `constant(v)` is reported constant, and a constant spectrum is one. */
  lemma ConstantIsConstant(v: real, w: seq<real>)
    requires |w| == N
    ensures AllEqualFirst(ConstantValues(v))
    ensures AllEqualFirst(w) <==> w == ConstantValues(w[0])
  {
  }

  /** `SampledSpectrum::terminate_secondary`: a zero spectrum stays, otherwise entries 1.. become 0. */
  function TerminateValues(v: seq<real>): (r: seq<real>)
    requires |v| == N
    ensures |r| == N && r[0] == v[0]
    ensures AllZero(v) ==> r == v
    ensures !AllZero(v) ==> forall i :: 1 <= i < N ==> r[i] == 0.0
  {
    if AllZero(v) then v else [v[0], 0.0, 0.0, 0.0]
  }

  lemma {:induction false} TerminateValuesIdempotent(v: seq<real>)
    requires |v| == N
    ensures TerminateValues(TerminateValues(v)) == TerminateValues(v)
  {
    var r := TerminateValues(v);
    if !AllZero(v) {
      assert r == [r[0], 0.0, 0.0, 0.0];
    }
  }

  // ---------------------------------------------------------------------------
  // SampledSpectrum

  class SampledSpectrum {
    var values: array<real>

    ghost predicate Valid()
      reads this
    {
      values.Length == N
    }

    /** `new()` and `zero()`. */
    constructor Zero()
      ensures Valid() && fresh(values) && values[..] == ConstantValues(0.0)
    {
      var a := new real[N](_ => 0.0);
      assert a[..] == ConstantValues(0.0);
      values := a;
    }

    /** `constant(v)`; `one()` is `ConstantValues(1.0)`. */
    constructor Constant(v: real)
      ensures Valid() && fresh(values) && values[..] == ConstantValues(v)
    {
      var a := new real[N](_ => v);
      assert a[..] == ConstantValues(v);
      values := a;
    }

    /** `from(values)`. */
    constructor From(vs: seq<real>)
      requires |vs| == N
      ensures Valid() && fresh(values) && values[..] == vs
    {
      var a := new real[N](i requires 0 <= i < N => vs[i]);
      assert a[..] == vs;
      values := a;
    }

    predicate IsZero()
      reads this, values
    {
      AllZero(values[..])
    }

    predicate IsConstant()
      reads this, values
      requires Valid()
    {
      AllEqualFirst(values[..])
    }

    /** `self / rhs`: fills a new spectrum in a loop, with zeros for a zero divisor. */
    method Div(rhs: real) returns (r: SampledSpectrum)
      requires Valid()
      ensures r.Valid() && fresh(r) && fresh(r.values)
      ensures r.values[..] == DivScalar(values[..], rhs)
    {
      r := new SampledSpectrum.Zero();
      for i := 0 to N
        invariant r.Valid() && fresh(r.values)
        invariant forall k :: 0 <= k < i ==> r.values[k] == DivScalar(values[..], rhs)[k]
      {
        if rhs == 0.0 {
          r.values[i] := 0.0;
        } else {
          r.values[i] := values[i] / rhs;
        }
      }
    }

    /** `self / rhs` for a spectrum divisor. */
    method DivBy(rhs: SampledSpectrum) returns (r: SampledSpectrum)
      requires Valid() && rhs.Valid()
      ensures r.Valid() && fresh(r) && fresh(r.values)
      ensures r.values[..] == DivComponents(values[..], rhs.values[..])
    {
      r := new SampledSpectrum.Zero();
      for i := 0 to N
        invariant r.Valid() && fresh(r.values)
        invariant forall k :: 0 <= k < i ==> r.values[k] == DivComponents(values[..], rhs.values[..])[k]
      {
        if rhs.values[i] == 0.0 {
          r.values[i] := 0.0;
        } else {
          r.values[i] := values[i] / rhs.values[i];
        }
      }
    }

    /** `self /= rhs` as written: a zero divisor leaves the values unchanged. */
    method DivAssignScalar(rhs: real)
      requires Valid()
      modifies values
      ensures values[..] == DivAssignScalarAsWritten(old(values[..]), rhs)
    {
      if rhs == 0.0 {
        var discarded := new SampledSpectrum.Zero();
      } else {
        for i := 0 to N
          invariant forall k :: 0 <= k < i ==> values[k] == old(values[k]) / rhs
          invariant forall k :: i <= k < N ==> values[k] == old(values[k])
        {
          values[i] := values[i] / rhs;
        }
      }
    }

    /** `self /= rhs` writing zeros for a zero divisor, so that it agrees with `self / rhs`. */
    method DivAssignScalarZeroing(rhs: real)
      requires Valid()
      modifies values
      ensures values[..] == DivScalar(old(values[..]), rhs)
    {
      for i := 0 to N
        invariant forall k :: 0 <= k < i ==> values[k] == DivScalar(old(values[..]), rhs)[k]
        invariant forall k :: i <= k < N ==> values[k] == old(values[k])
      {
        if rhs == 0.0 {
          values[i] := 0.0;
        } else {
          values[i] := values[i] / rhs;
        }
      }
    }

    /** `self /= rhs` for a spectrum divisor. */
    method DivAssign(rhs: SampledSpectrum)
      requires Valid() && rhs.Valid() && rhs.values != values
      modifies values
      ensures values[..] == DivComponents(old(values[..]), rhs.values[..])
    {
      for i := 0 to N
        invariant forall k :: 0 <= k < i ==> values[k] == DivComponents(old(values[..]), rhs.values[..])[k]
        invariant forall k :: i <= k < N ==> values[k] == old(values[k])
      {
        if rhs.values[i] == 0.0 {
          values[i] := 0.0;
        } else {
          values[i] := values[i] / rhs.values[i];
        }
      }
    }

    /** `terminate_secondary`. */
    method TerminateSecondary()
      requires Valid()
      modifies values
      ensures values[..] == TerminateValues(old(values[..]))
    {
      if IsZero() {
        return;
      }
      for i := 1 to N
        invariant values[0] == old(values[0])
        invariant forall k :: 1 <= k < i ==> values[k] == 0.0
      {
        values[i] := 0.0;
      }
      assert values[..] == [old(values[0]), 0.0, 0.0, 0.0];
    }
  }

  // ---------------------------------------------------------------------------
  // SampledWavelengths

  /** One wrapped step of `new_uniform_range`: add delta, and wrap past the maximum. */
  function WrapStep(x: real, delta: real, lo: real, hi: real): real
  {
    if x + delta >= hi then lo + (x + delta - hi) else x + delta
  }

  /** The first wavelength of `new_uniform_range`. */
  function FirstLambda(u: real, lo: real, hi: real): real
  {
    lo + u * (hi - lo)
  }

  /** The wavelengths of `new_uniform_range`: the first at u, each next one a quarter further, wrapped. */
  function UniformLambdas(u: real, lo: real, hi: real): (r: seq<real>)
    ensures |r| == N && r[0] == FirstLambda(u, lo, hi)
    ensures forall i :: 1 <= i < N ==> r[i] == WrapStep(r[i - 1], (hi - lo) / 4.0, lo, hi)
  {
    var delta := (hi - lo) / 4.0;
    var l0 := FirstLambda(u, lo, hi);
    var l1 := WrapStep(l0, delta, lo, hi);
    var l2 := WrapStep(l1, delta, lo, hi);
    [l0, l1, l2, WrapStep(l2, delta, lo, hi)]
  }

  lemma ProductPositive(a: real, b: real)
    requires a > 0.0 && b > 0.0
    ensures a * b > 0.0
  {
  }

  lemma FractionOfWidth(u: real, w: real, lo: real, f: real)
    requires 0.0 <= u < 1.0 && w > 0.0 && f == lo + u * w
    ensures lo <= f < lo + w
  {
    ProductPositive(1.0 - u, w);
    ProductNonnegative(u, w);
    assert u * w == w - (1.0 - u) * w;
  }

  lemma FirstLambdaInRange(u: real, lo: real, hi: real)
    requires 0.0 <= u < 1.0 && lo < hi
    ensures lo <= FirstLambda(u, lo, hi) < hi
  {
    FractionOfWidth(u, hi - lo, lo, FirstLambda(u, lo, hi));
  }

  lemma WrapStepInRange(x: real, lo: real, hi: real)
    requires lo <= x < hi && lo < hi
    ensures lo <= WrapStep(x, (hi - lo) / 4.0, lo, hi) < hi
  {
  }

  /** For u in [0, 1) every wavelength lies in [lo, hi). */
  lemma UniformLambdasInRange(u: real, lo: real, hi: real)
    requires 0.0 <= u < 1.0 && lo < hi
    ensures forall i :: 0 <= i < N ==> lo <= UniformLambdas(u, lo, hi)[i] < hi
  {
    var r := UniformLambdas(u, lo, hi);
    FirstLambdaInRange(u, lo, hi);
    WrapStepInRange(r[0], lo, hi);
    WrapStepInRange(r[1], lo, hi);
    WrapStepInRange(r[2], lo, hi);
  }

  /** `is_secondary_terminated`: the densities after the first are all zero. */
  predicate SecondaryTerminated(pdf: seq<real>)
    requires |pdf| == N
  {
    forall i :: 1 <= i < N ==> pdf[i] == 0.0
  }

  /** `SampledWavelengths::terminate_secondary`: once, zero the later densities and divide the first by N. */
  function TerminatePdf(pdf: seq<real>): (r: seq<real>)
    requires |pdf| == N
    ensures |r| == N && SecondaryTerminated(r)
  {
    if SecondaryTerminated(pdf) then pdf else [pdf[0] / 4.0, 0.0, 0.0, 0.0]
  }

  /** Terminating twice is terminating once: the first density is divided by N only once. */
  lemma TerminatePdfIdempotent(pdf: seq<real>)
    requires |pdf| == N
    ensures TerminatePdf(TerminatePdf(pdf)) == TerminatePdf(pdf)
    ensures TerminatePdf(pdf)[0] == if SecondaryTerminated(pdf) then pdf[0] else pdf[0] / 4.0
  {
  }

  /** The arrays `new_uniform_range` fills, with its loop that steps and wraps the wavelengths. */
  method UniformArrays(u: real, lo: real, hi: real) returns (l: array<real>, p: array<real>)
    requires lo < hi
    ensures fresh(l) && fresh(p) && l != p && l.Length == N && p.Length == N
    ensures p[..] == ConstantValues(1.0 / (hi - lo))
    ensures l[..] == UniformLambdas(u, lo, hi)
  {
    p := new real[N](_ => 1.0 / (hi - lo));
    l := new real[N](_ => 0.0);
    assert p[..] == ConstantValues(1.0 / (hi - lo));
    ghost var expected := UniformLambdas(u, lo, hi);
    l[0] := lo + u * (hi - lo);
    var delta := (hi - lo) / (N as real);
    assert delta == (hi - lo) / 4.0;
    for i := 1 to N
      invariant p[..] == ConstantValues(1.0 / (hi - lo))
      invariant forall k :: 0 <= k < i ==> l[k] == expected[k]
    {
      l[i] := l[i - 1] + delta;
      if l[i] >= hi {
        l[i] := lo + (l[i] - hi);
      }
    }
    assert l[..] == expected;
  }

  class SampledWavelengths {
    var lambda: array<real>
    var pdf: array<real>

    ghost predicate Valid()
      reads this
    {
      lambda.Length == N && pdf.Length == N && lambda != pdf
    }

    /**
     * `new_uniform_range`: every density is 1 / (hi - lo), the first wavelength sits at
     * u across the range and the others follow at steps of a quarter of the range,
     * wrapped back past hi.
     */
    constructor NewUniformRange(u: real, lo: real, hi: real)
      requires lo < hi
      ensures Valid() && fresh(lambda) && fresh(pdf)
      ensures pdf[..] == ConstantValues(1.0 / (hi - lo))
      ensures lambda[..] == UniformLambdas(u, lo, hi)
    {
      var l, p := UniformArrays(u, lo, hi);
      lambda, pdf := l, p;
    }

    /** `new_uniform`: the visible range LambdaMin..LambdaMax. */
    constructor NewUniform(u: real)
      ensures Valid() && fresh(lambda) && fresh(pdf)
      ensures pdf[..] == ConstantValues(1.0 / (LambdaMax - LambdaMin))
      ensures lambda[..] == UniformLambdas(u, LambdaMin, LambdaMax)
    {
      var l, p := UniformArrays(u, LambdaMin, LambdaMax);
      lambda, pdf := l, p;
    }

    predicate IsSecondaryTerminated()
      reads this, pdf
      requires Valid()
    {
      SecondaryTerminated(pdf[..])
    }

    /** `terminate_secondary`. */
    method TerminateSecondary()
      requires Valid()
      modifies pdf
      ensures pdf[..] == TerminatePdf(old(pdf[..]))
      ensures unchanged(lambda)
    {
      if IsSecondaryTerminated() {
        return;
      }
      for i := 1 to N
        invariant pdf[0] == old(pdf[0])
        invariant forall k :: 1 <= k < i ==> pdf[k] == 0.0
      {
        pdf[i] := 0.0;
      }
      pdf[0] := pdf[0] / (N as real);
      assert pdf[..] == [old(pdf[0]) / 4.0, 0.0, 0.0, 0.0];
    }
  }
}
