/**
 * The light sampler of the scene crate (scene/src/light_sampler.rs): a factory
 * that lists the light primitives of a scene, and a sampler created from it for
 * one set of wavelengths that picks a light in proportion to its power through
 * a cumulative table.
 *
 * The primitive repository is not part of this model: whether a primitive is a
 * light or an infinite light, and the weight `phi(lambda).average()` of each
 * light, are parameters.
 */
module SceneLightSampler {
  import opened Basics
  import opened SampleTable

  /** A `PrimitiveIndex`: the primitive's position in the repository. */
  type PrimitiveIndex = nat

  /** `LightSample`: the chosen light and the probability of choosing it. */
  datatype LightSample = LightSample(primitiveIndex: PrimitiveIndex, probability: real)

  /** `LightSamplerFactory`: the light primitives, in repository order. */
  datatype Factory = Factory(lightList: seq<PrimitiveIndex>)

  /** The primitives that are lights, in order. */
  function Lights(primitives: seq<PrimitiveIndex>, isLight: PrimitiveIndex -> bool): seq<PrimitiveIndex>
    decreases |primitives|
  {
    if |primitives| == 0 then []
    else
      var n := |primitives| - 1;
      Lights(primitives[..n], isLight) + (if isLight(primitives[n]) then [primitives[n]] else [])
  }

  /** The light list holds exactly the primitives that are lights. */
  lemma {:induction false} LightsExactly(primitives: seq<PrimitiveIndex>, isLight: PrimitiveIndex -> bool, p: PrimitiveIndex)
    ensures p in Lights(primitives, isLight) <==> p in primitives && isLight(p)
    decreases |primitives|
  {
    if |primitives| > 0 {
      var n := |primitives| - 1;
      LightsExactly(primitives[..n], isLight, p);
      assert primitives == primitives[..n] + [primitives[n]];
    }
  }

  /** A list without repeats keeps none when filtered. */
  lemma {:induction false} LightsDistinct(primitives: seq<PrimitiveIndex>, isLight: PrimitiveIndex -> bool)
    requires Distinct(primitives)
    ensures Distinct(Lights(primitives, isLight))
    decreases |primitives|
  {
    if |primitives| > 0 {
      var n := |primitives| - 1;
      LightsDistinct(primitives[..n], isLight);
      if isLight(primitives[n]) {
        LightsExactly(primitives[..n], isLight, primitives[n]);
      }
    }
  }

  /**
   * `LightSamplerFactory::build`: collect the primitives that are lights.
   * The `preprocess` call on each light is not part of this model.
   */
  method BuildFactory(primitives: seq<PrimitiveIndex>, isLight: PrimitiveIndex -> bool) returns (f: Factory)
    ensures f.lightList == Lights(primitives, isLight)
  {
    var lightList := [];
    for k := 0 to |primitives|
      invariant lightList == Lights(primitives[..k], isLight)
    {
      assert primitives[..k + 1][..k] == primitives[..k];
      if isLight(primitives[k]) {
        lightList := lightList + [primitives[k]];
      }
    }
    assert primitives[..|primitives|] == primitives;
    return Factory(lightList);
  }

  /** `LightSampler`: the factory, one weight per light, their total and the cumulative table. */
  datatype Sampler = Sampler(factory: Factory, sampleWeightList: seq<real>, sampleWeightSum: real, sampleTable: seq<Quotient>)

  /** What `create` establishes and every query relies on: the weights, total and table agree. */
  ghost predicate Valid(s: Sampler)
  {
    |s.sampleWeightList| == |s.factory.lightList| &&
    s.sampleWeightSum == Sum(s.sampleWeightList) &&
    s.sampleTable == CumulativeTable(s.sampleWeightList, s.sampleWeightSum)
  }

  /** The weight of each light of the list, `phi(lambda).average()` for the wavelengths at hand. */
  function Weights(lightList: seq<PrimitiveIndex>, weightOf: PrimitiveIndex -> real): (w: seq<real>)
    ensures |w| == |lightList| && forall i :: 0 <= i < |w| ==> w[i] == weightOf(lightList[i])
  {
    seq(|lightList|, i requires 0 <= i < |lightList| => weightOf(lightList[i]))
  }

  /**
   * `LightSamplerFactory::create`: weigh every light and add the weights up,
   * then fill the table with the running sums divided by the total.
   */
  method Create(f: Factory, weightOf: PrimitiveIndex -> real) returns (s: Sampler)
    ensures Valid(s) && s.factory == f && s.sampleWeightList == Weights(f.lightList, weightOf)
  {
    var weightSum := 0.0;
    var sampleWeightList := [];
    for k := 0 to |f.lightList|
      invariant sampleWeightList == Weights(f.lightList[..k], weightOf)
      invariant weightSum == Sum(sampleWeightList)
    {
      var weight := weightOf(f.lightList[k]);
      assert sampleWeightList + [weight] == Weights(f.lightList[..k + 1], weightOf);
      assert (sampleWeightList + [weight])[..k] == sampleWeightList;
      weightSum := weightSum + weight;
      sampleWeightList := sampleWeightList + [weight];
    }
    assert f.lightList[..|f.lightList|] == f.lightList;
    var sampleTable := seq(|sampleWeightList|, _ => Finite(0.0));
    var cumulativeSum := 0.0;
    for i := 0 to |sampleTable|
      invariant |sampleTable| == |sampleWeightList|
      invariant cumulativeSum == Sum(sampleWeightList[..i])
      invariant forall j :: 0 <= j < i ==> sampleTable[j] == Div(Sum(sampleWeightList[..j + 1]), weightSum)
    {
      assert sampleWeightList[..i + 1][..i] == sampleWeightList[..i];
      cumulativeSum := cumulativeSum + sampleWeightList[i];
      sampleTable := sampleTable[i := Div(cumulativeSum, weightSum)];
    }
    s := Sampler(f, sampleWeightList, weightSum, sampleTable);
  }

  /**
   * `sample_light`: nothing when there are no lights or their total weight is 0;
   * otherwise the first light whose table entry is above `u` (the last light if
   * none is), with probability weight over total.
   */
  method SampleLight(s: Sampler, u: real) returns (r: Option<LightSample>)
    requires Valid(s)
    ensures r.None? <==> |s.sampleTable| == 0 || s.sampleWeightSum == 0.0
    ensures r.Some? ==>
      var i := FirstBelow(s.sampleTable, u);
      r.value == LightSample(s.factory.lightList[i], s.sampleWeightList[i] / s.sampleWeightSum)
  {
    if |s.sampleTable| == 0 || s.sampleWeightSum == 0.0 {
      return None;
    }
    for i := 0 to |s.sampleTable|
      invariant forall j :: 0 <= j < i ==> !Below(u, s.sampleTable[j])
    {
      if u < s.sampleTable[i].value {
        return Some(LightSample(s.factory.lightList[i], s.sampleWeightList[i] / s.sampleWeightSum));
      }
    }
    var last := |s.sampleTable| - 1;
    return Some(LightSample(s.factory.lightList[last], s.sampleWeightList[last] / s.sampleWeightSum));
  }

  /**
   * `probability`: 0 when there are no lights or their total weight is 0, or
   * when the primitive is not a listed light; otherwise the weight of its
   * first listing over the total.
   */
  function Probability(s: Sampler, p: PrimitiveIndex): (r: real)
    requires Valid(s)
    ensures p !in s.factory.lightList ==> r == 0.0
  {
    if |s.sampleTable| == 0 || s.sampleWeightSum == 0.0 then 0.0
    else
      match Position(s.factory.lightList, p)
      case None => 0.0
      case Some(index) => s.sampleWeightList[index] / s.sampleWeightSum
  }

  /**
   * With every light listed once, the probability `sample_light` reports for the
   * light it picks is the one `probability` gives for that light.
   */
  lemma SampledProbabilityAgrees(s: Sampler, i: nat)
    requires Valid(s) && Distinct(s.factory.lightList) && i < |s.factory.lightList| && s.sampleWeightSum != 0.0
    ensures Probability(s, s.factory.lightList[i]) == s.sampleWeightList[i] / s.sampleWeightSum
  {
    PositionOfDistinct(s.factory.lightList, i);
  }

  /**
   * For u in [0, 1) and nonnegative weights of positive total, the light picked is
   * the one whose stretch of the table holds u, and that stretch is exactly as
   * wide as the reported probability.
   */
  lemma SampleLightIsProportional(s: Sampler, u: real)
    requires Valid(s) && |s.sampleTable| > 0 && s.sampleWeightSum > 0.0 && 0.0 <= u < 1.0
    requires forall k :: 0 <= k < |s.sampleWeightList| ==> s.sampleWeightList[k] >= 0.0
    ensures var i := FirstBelow(s.sampleTable, u); var t := s.sampleTable;
      (if i == 0 then 0.0 else t[i - 1].value) <= u < t[i].value &&
      t[i].value - (if i == 0 then 0.0 else t[i - 1].value) == s.sampleWeightList[i] / s.sampleWeightSum
  {
    var i := FirstBelow(s.sampleTable, u);
    FirstBelowInInterval(s.sampleWeightList, u);
    TableStep(s.sampleWeightList, s.sampleWeightSum, i);
  }

  /** `probability` of every listed light, in list order. */
  function LightProbabilities(s: Sampler): (r: seq<real>)
    requires Valid(s)
    ensures |r| == |s.factory.lightList|
  {
    seq(|s.factory.lightList|, i requires 0 <= i < |s.factory.lightList| => Probability(s, s.factory.lightList[i]))
  }

  /** With every light listed once and a nonzero total, the probabilities of all lights add up to 1. */
  lemma ProbabilitiesSumToOne(s: Sampler)
    requires Valid(s) && Distinct(s.factory.lightList) && |s.sampleTable| > 0 && s.sampleWeightSum != 0.0
    ensures Sum(LightProbabilities(s)) == 1.0
  {
    var w, total := s.sampleWeightList, s.sampleWeightSum;
    var list := s.factory.lightList;
    var probabilities := LightProbabilities(s);
    forall i | 0 <= i < |list|
      ensures probabilities[i] == w[i] / total
    {
      SampledProbabilityAgrees(s, i);
    }
    assert probabilities == seq(|w|, i requires 0 <= i < |w| => w[i] / total);
    SumScaled(w, total);
    DivSelf(total);
  }

  // ---------------------------------------------------------------------------
  // Infinite lights

  /** The positions in the light list of the infinite lights, in order. */
  function InfinitePositions(lightList: seq<PrimitiveIndex>, isInfinite: PrimitiveIndex -> bool): (r: seq<nat>)
    ensures forall k :: 0 <= k < |r| ==> r[k] < |lightList| && isInfinite(lightList[r[k]])
    decreases |lightList|
  {
    if |lightList| == 0 then []
    else
      var n := |lightList| - 1;
      InfinitePositions(lightList[..n], isInfinite) + (if isInfinite(lightList[n]) then [n] else [])
  }

  /** Every infinite light of the list has its position listed. */
  lemma {:induction false} InfinitePositionsComplete(lightList: seq<PrimitiveIndex>, isInfinite: PrimitiveIndex -> bool, i: nat)
    requires i < |lightList| && isInfinite(lightList[i])
    ensures i in InfinitePositions(lightList, isInfinite)
    decreases |lightList|
  {
    var n := |lightList| - 1;
    if i < n {
      InfinitePositionsComplete(lightList[..n], isInfinite, i);
    }
  }

  /** The weights of the infinite lights, in list order. */
  function InfiniteWeights(w: seq<real>, positions: seq<nat>): (r: seq<real>)
    requires forall k :: 0 <= k < |positions| ==> positions[k] < |w|
    ensures |r| == |positions| && forall k :: 0 <= k < |r| ==> r[k] == w[positions[k]]
  {
    seq(|positions|, k requires 0 <= k < |positions| => w[positions[k]])
  }

  /** Looking at one more light of the list appends its position if it is infinite. */
  lemma InfinitePositionsStep(lightList: seq<PrimitiveIndex>, isInfinite: PrimitiveIndex -> bool, i: nat)
    requires i < |lightList|
    ensures InfinitePositions(lightList[..i + 1], isInfinite) ==
      InfinitePositions(lightList[..i], isInfinite) + (if isInfinite(lightList[i]) then [i] else [])
  {
    assert lightList[..i + 1][..i] == lightList[..i];
  }

  /** One more infinite light appends its weight and adds it to the total. */
  lemma AppendInfinite(w: seq<real>, positions: seq<nat>, i: nat)
    requires i < |w| && forall k :: 0 <= k < |positions| ==> positions[k] < |w|
    ensures InfiniteWeights(w, positions + [i]) == InfiniteWeights(w, positions) + [w[i]]
    ensures Sum(InfiniteWeights(w, positions + [i])) == Sum(InfiniteWeights(w, positions)) + w[i]
  {
    var before := InfiniteWeights(w, positions);
    assert InfiniteWeights(w, positions + [i]) == before + [w[i]];
    assert (before + [w[i]])[..|before|] == before;
  }

  /**
   * `sample_infinite_light` once the infinite lights are filtered: nothing if
   * their weights add up to 0, otherwise the first one whose running share of
   * their total is above `u`, or the last one.
   */
  function SampleInfiniteOf(s: Sampler, isInfinite: PrimitiveIndex -> bool, u: real): (r: Option<LightSample>)
    requires Valid(s)
    ensures r.None? <==>
      |s.sampleTable| == 0 || s.sampleWeightSum == 0.0 ||
      Sum(InfiniteWeights(s.sampleWeightList, InfinitePositions(s.factory.lightList, isInfinite))) == 0.0
    ensures r.Some? ==> r.value.primitiveIndex in s.factory.lightList && isInfinite(r.value.primitiveIndex)
  {
    if |s.sampleTable| == 0 || s.sampleWeightSum == 0.0 then None
    else
      var positions := InfinitePositions(s.factory.lightList, isInfinite);
      var iw := InfiniteWeights(s.sampleWeightList, positions);
      var total := Sum(iw);
      if total == 0.0 then None
      else
        var k := FirstBelow(CumulativeTable(iw, total), u);
        Some(LightSample(s.factory.lightList[positions[k]], iw[k] / total))
  }

  /** The filter loop of `sample_infinite_light`: the infinite lights' weights, positions and total. */
  method FilterInfinite(s: Sampler, isInfinite: PrimitiveIndex -> bool)
    returns (infiniteWeights: seq<real>, infiniteIndices: seq<nat>, infiniteWeightSum: real)
    requires |s.sampleWeightList| == |s.factory.lightList|
    ensures infiniteIndices == InfinitePositions(s.factory.lightList, isInfinite)
    ensures infiniteWeights == InfiniteWeights(s.sampleWeightList, infiniteIndices)
    ensures infiniteWeightSum == Sum(infiniteWeights)
  {
    var list, w := s.factory.lightList, s.sampleWeightList;
    infiniteWeights, infiniteIndices, infiniteWeightSum := [], [], 0.0;
    for i := 0 to |list|
      invariant infiniteIndices == InfinitePositions(list[..i], isInfinite)
      invariant infiniteWeights == InfiniteWeights(w, infiniteIndices)
      invariant infiniteWeightSum == Sum(infiniteWeights)
    {
      InfinitePositionsStep(list, isInfinite, i);
      if isInfinite(list[i]) {
        AppendInfinite(w, infiniteIndices, i);
        infiniteWeights := infiniteWeights + [w[i]];
        infiniteIndices := infiniteIndices + [i];
        infiniteWeightSum := infiniteWeightSum + w[i];
      }
    }
    assert list[..|list|] == list;
  }

  /** The search loop of `sample_infinite_light`: the first running share above `u`, or the last. */
  method FirstShareAbove(weights: seq<real>, total: real, u: real) returns (k: nat)
    requires |weights| > 0 && total != 0.0
    ensures k == FirstBelow(CumulativeTable(weights, total), u)
  {
    ghost var table := CumulativeTable(weights, total);
    var cumulative := 0.0;
    for i := 0 to |weights|
      invariant cumulative == Sum(weights[..i])
      invariant forall j :: 0 <= j < i ==> !Below(u, table[j])
    {
      assert weights[..i + 1][..i] == weights[..i];
      cumulative := cumulative + weights[i];
      if u < cumulative / total {
        assert table[i] == Finite(cumulative / total);
        return i;
      }
    }
    return |weights| - 1;
  }

  /** `sample_infinite_light`: filter the infinite lights with their weights, then search their running shares. */
  method SampleInfiniteLight(s: Sampler, isInfinite: PrimitiveIndex -> bool, u: real) returns (r: Option<LightSample>)
    requires Valid(s)
    ensures r == SampleInfiniteOf(s, isInfinite, u)
  {
    if |s.sampleTable| == 0 || s.sampleWeightSum == 0.0 {
      return None;
    }
    var infiniteWeights, infiniteIndices, infiniteWeightSum := FilterInfinite(s, isInfinite);
    if infiniteWeightSum == 0.0 {
      return None;
    }
    // A nonzero total means at least one infinite light, so the source's
    // final `None` for an empty filter is never reached.
    var k := FirstShareAbove(infiniteWeights, infiniteWeightSum, u);
    return Some(LightSample(s.factory.lightList[infiniteIndices[k]], infiniteWeights[k] / infiniteWeightSum));
  }

  /**
   * `probability_infinite_light`: 0 when there are no lights, their total weight
   * is 0, the infinite lights' total is 0, or the primitive is not a listed
   * infinite light; otherwise its weight over the infinite lights' total.
   */
  function ProbabilityInfiniteOf(s: Sampler, isInfinite: PrimitiveIndex -> bool, p: PrimitiveIndex): (r: real)
    requires Valid(s)
    ensures p !in s.factory.lightList || !isInfinite(p) ==> r == 0.0
  {
    if |s.sampleTable| == 0 || s.sampleWeightSum == 0.0 then 0.0
    else
      var total := Sum(InfiniteWeights(s.sampleWeightList, InfinitePositions(s.factory.lightList, isInfinite)));
      if total == 0.0 then 0.0
      else
        match Position(s.factory.lightList, p)
        case None => 0.0
        case Some(index) => if isInfinite(p) then s.sampleWeightList[index] / total else 0.0
  }

  /** `probability_infinite_light`: add up the infinite lights' weights, then look the primitive up. */
  method ProbabilityInfiniteLight(s: Sampler, isInfinite: PrimitiveIndex -> bool, p: PrimitiveIndex) returns (r: real)
    requires Valid(s)
    ensures r == ProbabilityInfiniteOf(s, isInfinite, p)
  {
    if |s.sampleTable| == 0 || s.sampleWeightSum == 0.0 {
      return 0.0;
    }
    var list, w := s.factory.lightList, s.sampleWeightList;
    var infiniteWeightSum := 0.0;
    ghost var positions: seq<nat> := [];
    for i := 0 to |list|
      invariant positions == InfinitePositions(list[..i], isInfinite)
      invariant infiniteWeightSum == Sum(InfiniteWeights(w, positions))
    {
      InfinitePositionsStep(list, isInfinite, i);
      if isInfinite(list[i]) {
        AppendInfinite(w, positions, i);
        infiniteWeightSum := infiniteWeightSum + w[i];
        positions := positions + [i];
      }
    }
    assert list[..|list|] == list;
    if infiniteWeightSum == 0.0 {
      return 0.0;
    }
    var index := Position(list, p);
    if index.Some? {
      if isInfinite(p) {
        return w[index.value] / infiniteWeightSum;
      }
      return 0.0;
    }
    return 0.0;
  }

  /**
   * With every light listed once, the probability `sample_infinite_light`
   * reports is the one `probability_infinite_light` gives for the light it picks.
   */
  lemma SampledInfiniteProbabilityAgrees(s: Sampler, isInfinite: PrimitiveIndex -> bool, u: real)
    requires Valid(s) && Distinct(s.factory.lightList)
    ensures var r := SampleInfiniteOf(s, isInfinite, u);
      r.Some? ==> r.value.probability == ProbabilityInfiniteOf(s, isInfinite, r.value.primitiveIndex)
  {
    var r := SampleInfiniteOf(s, isInfinite, u);
    if r.Some? {
      var positions := InfinitePositions(s.factory.lightList, isInfinite);
      var iw := InfiniteWeights(s.sampleWeightList, positions);
      var k := FirstBelow(CumulativeTable(iw, Sum(iw)), u);
      PositionOfDistinct(s.factory.lightList, positions[k]);
    }
  }
}
