/**
 * The light sampler of the toy renderer (toy-cpu-pathtracing/src/scene/light_sampler.rs):
 * one object that lists every primitive, is given the wavelengths to sample
 * with `set_sample_lambda`, which builds its weights and cumulative table and
 * marks it initialized, and panics when asked for a light before that. A clone
 * keeps the primitive list but starts uninitialized again.
 *
 * The primitive repository is not part of this model: whether a primitive is
 * a light, and the weight `phi(lambda)` of each light, are parameters.
 */
module ToyLightSampler {
  import opened Basics
  import opened SampleTable
  import SceneLightSampler

  /** `LightSample`: the chosen primitive and the probability reported with it. */
  datatype ToySample = ToySample(primitiveIndex: nat, probability: Quotient)

  /** What a query returns, or the panic it ends in. */
  datatype Outcome<T> = Done(value: T) | NotInitialized | EmptyTablePanic

  /** The weights `set_sample_lambda` collects: one per primitive that is a light, in order. */
  function LightWeights(primitives: seq<nat>, isLight: nat -> bool, weightOf: nat -> real): seq<real>
  {
    SceneLightSampler.Weights(SceneLightSampler.Lights(primitives, isLight), weightOf)
  }

  /** Filtering keeps every primitive exactly when all of them are lights. */
  lemma {:induction false} LightsShorterIffNonLight(primitives: seq<nat>, isLight: nat -> bool)
    ensures |SceneLightSampler.Lights(primitives, isLight)| <= |primitives|
    ensures |SceneLightSampler.Lights(primitives, isLight)| < |primitives| <==>
      exists k :: 0 <= k < |primitives| && !isLight(primitives[k])
    decreases |primitives|
  {
    if |primitives| > 0 {
      var n := |primitives| - 1;
      LightsShorterIffNonLight(primitives[..n], isLight);
      assert forall k :: 0 <= k < n ==> primitives[..n][k] == primitives[k];
    }
  }

  /**
   * The sample `sample_light` returns once initialized: the first primitive
   * whose table entry is above `u` (the last if none is), reported with its
   * table entry. An empty table makes `len() - 1` underflow.
   */
  function SampleAsWritten(primitives: seq<nat>, table: seq<Quotient>, u: real): Outcome<ToySample>
    requires |primitives| == |table|
  {
    if |table| == 0 then EmptyTablePanic
    else
      var i := FirstBelow(table, u);
      Done(ToySample(primitives[i], table[i]))
  }

  /** The same choice of primitive, reported with its weight over the total. */
  function SampleCorrected(primitives: seq<nat>, w: seq<real>, total: real, table: seq<Quotient>, u: real): Outcome<ToySample>
    requires |primitives| == |table| == |w|
  {
    if |table| == 0 then EmptyTablePanic
    else
      var i := FirstBelow(table, u);
      Done(ToySample(primitives[i], Div(w[i], total)))
  }

  /** `probability` once initialized: the weight of the primitive's first listing over the total, or 0 if unlisted. */
  function ProbabilityOf(primitives: seq<nat>, w: seq<real>, total: real, p: nat): (r: Quotient)
    requires |w| == |primitives|
    ensures p !in primitives ==> r == Finite(0.0)
  {
    match Position(primitives, p)
    case None => Finite(0.0)
    case Some(index) => Div(w[index], total)
  }

  /**
   * As written, `sample_light` reports the running table entry rather than the
   * light's own share: with two lights of weight 1 and u = 0.7 it picks the
   * second light and reports 1, while `probability` of that light is 0.5.
   */
  lemma SampleAsWrittenReportsCumulative()
    ensures var w := [1.0, 1.0]; var table := CumulativeTable(w, Sum(w));
      SampleAsWritten([10, 11], table, 0.7) == Done(ToySample(11, Finite(1.0))) &&
      ProbabilityOf([10, 11], w, Sum(w), 11) == Finite(0.5)
  {
    var w := [1.0, 1.0];
    assert w[..1] == [1.0] && w[..2] == w && [1.0][..0] == [];
    assert Sum(w[..1]) == 1.0;
    assert Sum(w) == 2.0;
    var table := CumulativeTable(w, Sum(w));
    assert table[0] == Finite(0.5) && table[1] == Finite(1.0);
    assert !Below(0.7, table[0]) && Below(0.7, table[1]);
    assert Position([10, 11], 11) == Some(1);
  }

  /**
   * The corrected sample reports for the primitive it picks exactly the
   * probability `probability` gives it, when no primitive is listed twice.
   */
  lemma SampleCorrectedAgrees(primitives: seq<nat>, w: seq<real>, total: real, table: seq<Quotient>, u: real)
    requires |primitives| == |table| == |w| && |table| > 0 && Distinct(primitives)
    ensures var r := SampleCorrected(primitives, w, total, table, u);
      r.Done? && r.value.probability == ProbabilityOf(primitives, w, total, r.value.primitiveIndex)
  {
    PositionOfDistinct(primitives, FirstBelow(table, u));
  }

  /**
   * The first loop of `set_sample_lambda`: the weight of every primitive that is
   * a light, in order, and their running total.
   */
  method CollectWeights(primitives: seq<nat>, isLight: nat -> bool, weightOf: nat -> real)
    returns (weights: seq<real>, weightSum: real)
    ensures weights == LightWeights(primitives, isLight, weightOf) && weightSum == Sum(weights)
  {
    weightSum := 0.0;
    weights := [];
    ghost var lights: seq<nat> := [];
    for k := 0 to |primitives|
      invariant lights == SceneLightSampler.Lights(primitives[..k], isLight)
      invariant weights == SceneLightSampler.Weights(lights, weightOf)
      invariant weightSum == Sum(weights)
    {
      assert primitives[..k + 1][..k] == primitives[..k];
      if isLight(primitives[k]) {
        var weight := weightOf(primitives[k]);
        assert (weights + [weight])[..|weights|] == weights;
        weightSum := weightSum + weight;
        weights := weights + [weight];
        lights := lights + [primitives[k]];
      }
    }
    assert primitives[..|primitives|] == primitives;
  }

  /**
   * The second loop of `set_sample_lambda`: a table of `size` entries filled with
   * running sums over the total. Reading a weight past the end of the list panics;
   * otherwise the table is the cumulative table of the weights.
   */
  method FillTable(size: nat, weights: seq<real>, weightSum: real) returns (outOfRange: bool, table: seq<Quotient>)
    requires |weights| <= size
    ensures outOfRange <==> |weights| < size
    ensures !outOfRange ==> table == CumulativeTable(weights, weightSum)
  {
    table := seq(size, _ => Finite(0.0));
    var cumulativeSum := 0.0;
    for i := 0 to size
      invariant |table| == size && i <= |weights|
      invariant cumulativeSum == Sum(weights[..i])
      invariant forall j :: 0 <= j < i ==> table[j] == Div(Sum(weights[..j + 1]), weightSum)
    {
      if i >= |weights| {
        return true, table;
      }
      assert weights[..i + 1][..i] == weights[..i];
      cumulativeSum := cumulativeSum + weights[i];
      table := table[i := Div(cumulativeSum, weightSum)];
    }
    return false, table;
  }

  /** `LightSampler`: every primitive, and once initialized their weights, total and cumulative table. */
  class LightSampler {
    var primitiveIndexList: seq<nat>
    var sampleWeightList: seq<real>
    var sampleWeightSum: real
    var sampleTable: seq<Quotient>
    var initialized: bool

    /** Uninitialized, the tables are empty; initialized, they agree with the weights of all primitives. */
    ghost predicate Valid()
      reads this
    {
      (!initialized ==> sampleWeightList == [] && sampleWeightSum == 0.0 && sampleTable == []) &&
      (initialized ==>
        |sampleWeightList| == |primitiveIndexList| &&
        sampleWeightSum == Sum(sampleWeightList) &&
        sampleTable == CumulativeTable(sampleWeightList, sampleWeightSum))
    }

    /** `build`: every primitive, no weights yet, uninitialized. The lights' `preprocess` is not part of this model. */
    constructor Build(primitives: seq<nat>)
      ensures Valid()
      ensures primitiveIndexList == primitives && sampleWeightList == [] && sampleWeightSum == 0.0
      ensures sampleTable == [] && !initialized
    {
      primitiveIndexList := primitives;
      sampleWeightList := [];
      sampleWeightSum := 0.0;
      sampleTable := [];
      initialized := false;
    }

    /** `clone`: the same primitives, but empty tables and uninitialized. */
    method Clone() returns (c: LightSampler)
      ensures fresh(c) && c.Valid()
      ensures c.primitiveIndexList == primitiveIndexList && c.sampleWeightList == [] && c.sampleWeightSum == 0.0
      ensures c.sampleTable == [] && !c.initialized
    {
      c := new LightSampler.Build(primitiveIndexList);
    }

    /**
     * `set_sample_lambda`: weigh the lights, then fill a table sized by all
     * primitives from those weights. When some primitive is not a light there
     * are fewer weights than entries and the weight lookup panics out of range,
     * leaving the sampler as it was; otherwise the sampler becomes initialized.
     */
    method SetSampleLambda(isLight: nat -> bool, weightOf: nat -> real) returns (outOfRange: bool)
      requires Valid()
      modifies this
      ensures outOfRange <==> exists k :: 0 <= k < |old(primitiveIndexList)| && !isLight(old(primitiveIndexList)[k])
      ensures outOfRange ==> unchanged(this)
      ensures !outOfRange ==>
        Valid() && initialized && primitiveIndexList == old(primitiveIndexList) &&
        sampleWeightList == LightWeights(primitiveIndexList, isLight, weightOf)
    {
      var weights, weightSum := CollectWeights(primitiveIndexList, isLight, weightOf);
      LightsShorterIffNonLight(primitiveIndexList, isLight);
      var table;
      outOfRange, table := FillTable(|primitiveIndexList|, weights, weightSum);
      if outOfRange {
        return;
      }
      sampleWeightList := weights;
      sampleWeightSum := weightSum;
      sampleTable := table;
      initialized := true;
    }

    /**
     * `sample_light`: panics unless initialized; otherwise searches the table
     * for the first entry above `u` and reports that entry as the probability.
     */
    method SampleLight(u: real) returns (r: Outcome<ToySample>)
      requires Valid()
      ensures !initialized ==> r == NotInitialized
      ensures initialized ==> r == SampleAsWritten(primitiveIndexList, sampleTable, u)
    {
      if !initialized {
        return NotInitialized;
      }
      for i := 0 to |sampleTable|
        invariant forall j :: 0 <= j < i ==> !Below(u, sampleTable[j])
      {
        if Below(u, sampleTable[i]) {
          return Done(ToySample(primitiveIndexList[i], sampleTable[i]));
        }
      }
      if |sampleTable| == 0 {
        return EmptyTablePanic;
      }
      var last := |sampleTable| - 1;
      return Done(ToySample(primitiveIndexList[last], sampleTable[last]));
    }

    /** `sample_light` reporting the chosen light's weight over the total instead of its table entry. */
    method SampleLightCorrected(u: real) returns (r: Outcome<ToySample>)
      requires Valid()
      ensures !initialized ==> r == NotInitialized
      ensures initialized ==> r == SampleCorrected(primitiveIndexList, sampleWeightList, sampleWeightSum, sampleTable, u)
    {
      if !initialized {
        return NotInitialized;
      }
      for i := 0 to |sampleTable|
        invariant forall j :: 0 <= j < i ==> !Below(u, sampleTable[j])
      {
        if Below(u, sampleTable[i]) {
          return Done(ToySample(primitiveIndexList[i], Div(sampleWeightList[i], sampleWeightSum)));
        }
      }
      if |sampleTable| == 0 {
        return EmptyTablePanic;
      }
      var last := |sampleTable| - 1;
      return Done(ToySample(primitiveIndexList[last], Div(sampleWeightList[last], sampleWeightSum)));
    }

    /** `probability`: panics unless initialized; otherwise the primitive's weight over the total, or 0. */
    method Probability(p: nat) returns (r: Outcome<Quotient>)
      requires Valid()
      ensures !initialized ==> r == NotInitialized
      ensures initialized ==> r == Done(ProbabilityOf(primitiveIndexList, sampleWeightList, sampleWeightSum, p))
    {
      if !initialized {
        return NotInitialized;
      }
      var index := Position(primitiveIndexList, p);
      if index.Some? {
        return Done(Div(sampleWeightList[index.value], sampleWeightSum));
      }
      return Done(Finite(0.0));
    }
  }
}
