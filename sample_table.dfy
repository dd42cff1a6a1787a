/**
 * The cumulative sampling table both light samplers build from their light
 * weights (scene/src/light_sampler.rs and toy-cpu-pathtracing/src/scene/light_sampler.rs):
 * running sums of the weights divided by their total, searched linearly for
 * the first entry above the random number `u`.
 *
 * The division is the f32 division of the source: dividing by a zero total
 * gives an infinity or NaN, which the toy sampler goes on to compare with `u`.
 */
module SampleTable {
  import opened Basics

  /** An f32 quotient: a finite value, or what dividing by zero gives. */
  datatype Quotient = Finite(value: real) | PosInf | NegInf | NaN

  /** f32 division `a / b`: a nonzero numerator over zero is an infinity of its sign, zero over zero is NaN. */
  function Div(a: real, b: real): Quotient
  {
    if b != 0.0 then Finite(a / b)
    else if a > 0.0 then PosInf
    else if a < 0.0 then NegInf
    else NaN
  }

  /** The f32 comparison `u < q`: false against NaN and negative infinity, true against positive infinity. */
  predicate Below(u: real, q: Quotient)
  {
    match q
    case Finite(v) => u < v
    case PosInf => true
    case NegInf => false
    case NaN => false
  }

  /** The total of the weights, added up front to back as the `+=` loops do. */
  function Sum(w: seq<real>): real
    decreases |w|
  {
    if |w| == 0 then 0.0 else Sum(w[..|w| - 1]) + w[|w| - 1]
  }

  /** `sample_table[i] = cumulative_sum / weight_sum` with `cumulative_sum` the sum of the first i+1 weights. */
  function CumulativeTable(w: seq<real>, total: real): (t: seq<Quotient>)
    ensures |t| == |w|
    ensures total != 0.0 ==> forall i :: 0 <= i < |w| ==> t[i].Finite?
  {
    seq(|w|, i requires 0 <= i < |w| => Div(Sum(w[..i + 1]), total))
  }

  /** Adding a nonnegative weight does not decrease the running sum. */
  lemma {:induction false} SumPrefixMonotone(w: seq<real>, i: nat, j: nat)
    requires i <= j <= |w| && forall k :: 0 <= k < |w| ==> w[k] >= 0.0
    ensures Sum(w[..i]) <= Sum(w[..j])
    decreases j - i
  {
    if i < j {
      SumPrefixMonotone(w, i, j - 1);
      assert w[..j][..j - 1] == w[..j - 1];
    }
  }

  /** Nonnegative weights have a nonnegative sum. */
  lemma SumNonnegative(w: seq<real>)
    requires forall k :: 0 <= k < |w| ==> w[k] >= 0.0
    ensures Sum(w) >= 0.0
  {
    SumPrefixMonotone(w, 0, |w|);
    assert w[..0] == [] && w[..|w|] == w;
  }

  /** With nonnegative weights of positive total the entries of the table never decrease. */
  lemma TableNondecreasing(w: seq<real>)
    requires Sum(w) > 0.0 && forall k :: 0 <= k < |w| ==> w[k] >= 0.0
    ensures var t := CumulativeTable(w, Sum(w));
      forall i, j :: 0 <= i <= j < |w| ==> t[i].value <= t[j].value
  {
    var total := Sum(w);
    var t := CumulativeTable(w, total);
    forall i, j | 0 <= i <= j < |w|
      ensures t[i].value <= t[j].value
    {
      SumPrefixMonotone(w, i + 1, j + 1);
      DivMonotone(Sum(w[..i + 1]), Sum(w[..j + 1]), total);
    }
  }

  /** With a nonzero total the last entry of the table is exactly 1. */
  lemma TableEndsAtOne(w: seq<real>)
    requires |w| > 0 && Sum(w) != 0.0
    ensures CumulativeTable(w, Sum(w))[|w| - 1] == Finite(1.0)
  {
    var total := Sum(w);
    assert w[..|w|] == w;
    DivSelf(total);
  }

  lemma DivSelf(c: real)
    requires c != 0.0
    ensures c / c == 1.0
  {
  }

  lemma DivMonotone(a: real, b: real, c: real)
    requires a <= b && c > 0.0
    ensures a / c <= b / c
  {
  }

  /**
   * Entry i of the table exceeds the entry before it (or 0, for the first) by
   * w[i] / total: the share of [0, 1) that selects light i is its weight over the total.
   */
  lemma TableStep(w: seq<real>, total: real, i: nat)
    requires i < |w| && total != 0.0
    ensures var t := CumulativeTable(w, total);
      t[i].value - (if i == 0 then 0.0 else t[i - 1].value) == w[i] / total
  {
    assert w[..i + 1][..i] == w[..i];
    if i == 0 {
      assert w[..0] == [];
    }
    DivDifference(Sum(w[..i]), w[i], total);
  }

  lemma DivDifference(a: real, x: real, c: real)
    requires c != 0.0
    ensures (a + x) / c - a / c == x / c
  {
  }

  /** The first index at or after `from` whose entry is above `u`, or the last index if there is none. */
  function FirstBelowFrom(t: seq<Quotient>, u: real, from: nat): (i: nat)
    requires from < |t|
    ensures from <= i < |t|
    ensures forall j :: from <= j < i ==> !Below(u, t[j])
    ensures Below(u, t[i]) || i == |t| - 1
    decreases |t| - from
  {
    if Below(u, t[from]) || from == |t| - 1 then from else FirstBelowFrom(t, u, from + 1)
  }

  /**
   * The linear search of `sample_light`: the first i with `u < table[i]`, and
   * the last index when there is none.
   */
  function FirstBelow(t: seq<Quotient>, u: real): (i: nat)
    requires |t| > 0
    ensures i < |t|
    ensures forall j :: 0 <= j < i ==> !Below(u, t[j])
    ensures Below(u, t[i]) || (i == |t| - 1 && forall j :: 0 <= j < |t| ==> !Below(u, t[j]))
  {
    FirstBelowFrom(t, u, 0)
  }

  /**
   * For u in [0, 1) over a distribution table the search lands on the one
   * entry whose interval [table[i-1], table[i]) holds u, so the fallback to
   * the last light never decides anything.
   */
  lemma FirstBelowInInterval(w: seq<real>, u: real)
    requires |w| > 0 && Sum(w) > 0.0 && forall k :: 0 <= k < |w| ==> w[k] >= 0.0
    requires 0.0 <= u < 1.0
    ensures var t := CumulativeTable(w, Sum(w)); var i := FirstBelow(t, u);
      u < t[i].value && (i == 0 || t[i - 1].value <= u)
  {
    TableNondecreasing(w);
    TableEndsAtOne(w);
  }

  /** Dividing every weight by the total divides the sum by it. */
  lemma {:induction false} SumScaled(w: seq<real>, c: real)
    requires c != 0.0
    ensures Sum(seq(|w|, i requires 0 <= i < |w| => w[i] / c)) == Sum(w) / c
    decreases |w|
  {
    var scaled := seq(|w|, i requires 0 <= i < |w| => w[i] / c);
    if |w| > 0 {
      var n := |w| - 1;
      SumScaled(w[..n], c);
      assert scaled[..n] == seq(n, i requires 0 <= i < n => w[..n][i] / c);
      DivSum(Sum(w[..n]), w[n], c);
    }
  }

  lemma DivSum(a: real, b: real, c: real)
    requires c != 0.0
    ensures a / c + b / c == (a + b) / c
  {
  }

  /** `Iterator::position`: the first index holding `x`. */
  function Position(list: seq<nat>, x: nat): (r: Option<nat>)
    ensures r.None? <==> x !in list
    ensures r.Some? ==> r.value < |list| && list[r.value] == x && forall j :: 0 <= j < r.value ==> list[j] != x
    decreases |list|
  {
    if |list| == 0 then None
    else if list[0] == x then Some(0)
    else
      match Position(list[1..], x)
      case None => None
      case Some(k) => Some(k + 1)
  }

  /** No index appears twice. */
  predicate Distinct(list: seq<nat>)
  {
    forall i, j :: 0 <= i < j < |list| ==> list[i] != list[j]
  }

  /** In a list without repeats, the position of the entry at i is i. */
  lemma PositionOfDistinct(list: seq<nat>, i: nat)
    requires Distinct(list) && i < |list|
    ensures Position(list, list[i]) == Some(i)
  {
  }
}
