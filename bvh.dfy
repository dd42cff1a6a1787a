/**
 * The bounding volume hierarchy of the toy renderer (toy-cpu-pathtracing/src/scene/bvh.rs):
 * the SAH build over item lists, the flattening of the builder tree into one
 * array of nodes with patched child offsets, and the closest-hit traversal of
 * that array.
 *
 * Items are identified by number; their boxes and their own ray intersections
 * come from the geometry, which is not part of this model, so they are the
 * parameters `boundsOf` and `hitOf`.
 */
module Bvh {
  import opened Basics
  import opened Vectors
  import opened MathBounds

  /** A BVH item: an index into the geometry it stands for. */
  type ItemId = nat

  /** `BvhItem::bounds` for every item. */
  type BoundsOf = ItemId -> Bounds

  /** `BvhItem::intersect` for the ray being traced: the item's `t_hit`, if it is hit. */
  type HitOf = ItemId -> Option<real>

  /** `HitInfo`: the item that was hit and its `t_hit`. */
  datatype Hit = Hit(item: ItemId, tHit: real)

  /** The ray as the traversal uses it: origin, the reciprocal of its direction, and `t_max`. */
  datatype Ray = Ray(origin: Vec3, invDir: Vec3, tMax: real)

  /** `BvhBuilder`: an inner node with two children, or a leaf holding its item list. */
  datatype Builder = Node(bounds: Bounds, first: Builder, second: Builder) | Leaf(bounds: Bounds, items: seq<ItemId>)

  /** `BvhNode`: the entries of the flat array. */
  datatype FlatNode =
    | NodeEntry(bounds: Bounds, secondOffset: nat)
    | LeafEntry(bounds: Bounds, itemCount: nat)
    | ItemEntry(item: ItemId)

  /** `COST_LEAF` and `COST_NODE` of the surface area heuristic. */
  const CostLeaf: real := 1.0
  const CostNode: real := 1.0

  // ---------------------------------------------------------------------------
  // The box of an item list

  /** `BvhItemList::bounds`: the first item's box merged with each following one in turn. */
  function ListBounds(items: seq<ItemId>, boundsOf: BoundsOf): Bounds
    requires |items| > 0
    decreases |items|
  {
    if |items| == 1 then boundsOf(items[0])
    else Merge(ListBounds(items[..|items| - 1], boundsOf), boundsOf(items[|items| - 1]))
  }

  /** The list's box encloses every item's box. */
  lemma {:induction false} ListBoundsEncloses(items: seq<ItemId>, boundsOf: BoundsOf)
    requires |items| > 0
    ensures forall k :: 0 <= k < |items| ==> Encloses(ListBounds(items, boundsOf), boundsOf(items[k]))
    decreases |items|
  {
    if |items| > 1 {
      ListBoundsEncloses(items[..|items| - 1], boundsOf);
      assert forall k :: 0 <= k < |items| - 1 ==> items[..|items| - 1][k] == items[k];
    }
  }

  /** The list's box is the least box enclosing every item's box. */
  lemma {:induction false} ListBoundsLeast(items: seq<ItemId>, boundsOf: BoundsOf, c: Bounds)
    requires |items| > 0
    requires forall k :: 0 <= k < |items| ==> Encloses(c, boundsOf(items[k]))
    ensures Encloses(c, ListBounds(items, boundsOf))
    decreases |items|
  {
    if |items| > 1 {
      ListBoundsLeast(items[..|items| - 1], boundsOf, c);
      MergeLeast(ListBounds(items[..|items| - 1], boundsOf), boundsOf(items[|items| - 1]), c);
    }
  }

  /** The loop of `BvhItemList::bounds`; an empty list panics on `items[0]`. */
  method ItemListBounds(items: seq<ItemId>, boundsOf: BoundsOf) returns (r: Bounds)
    requires |items| > 0
    ensures r == ListBounds(items, boundsOf)
  {
    r := boundsOf(items[0]);
    for i := 1 to |items|
      invariant r == ListBounds(items[..i], boundsOf)
    {
      assert items[..i + 1][..i] == items[..i];
      r := Merge(r, boundsOf(items[i]));
    }
    assert items[..|items|] == items;
  }

  // ---------------------------------------------------------------------------
  // Sorting along an axis

  /** The sort key of `split`: the centre of the item's box on the axis. */
  function AxisKey(boundsOf: BoundsOf, axis: nat): ItemId -> real
    requires axis < 3
  {
    (it: ItemId) => Get(Center(boundsOf(it)), axis)
  }

  predicate SortedBy(s: seq<ItemId>, key: ItemId -> real)
  {
    forall i, j :: 0 <= i < j < |s| ==> key(s[i]) <= key(s[j])
  }

  /** Put x after every element whose key is not above its own. */
  function InsertByKey(x: ItemId, s: seq<ItemId>, key: ItemId -> real): (r: seq<ItemId>)
    ensures |r| == |s| + 1 && multiset(r) == multiset(s) + multiset{x}
    decreases |s|
  {
    if |s| == 0 then [x]
    else if key(x) < key(s[0]) then [x] + s
    else
      assert s == [s[0]] + s[1..];
      [s[0]] + InsertByKey(x, s[1..], key)
  }

  /** Inserting into a sorted list keeps it sorted. */
  lemma {:induction false} InsertByKeySorted(x: ItemId, s: seq<ItemId>, key: ItemId -> real)
    requires SortedBy(s, key)
    ensures SortedBy(InsertByKey(x, s, key), key)
    decreases |s|
  {
    if |s| > 0 && key(x) >= key(s[0]) {
      var rest := InsertByKey(x, s[1..], key);
      InsertByKeySorted(x, s[1..], key);
      forall j | 0 <= j < |rest|
        ensures key(s[0]) <= key(rest[j])
      {
        assert rest[j] in multiset(rest);
        assert rest[j] == x || rest[j] in multiset(s[1..]);
      }
    }
  }

  /**
   * `sort_by` on the key: a stable sort, like Rust's, written as an insertion sort.
   * It returns the same items (`SortByKeySorted` proves them in key order, and
   * `SortByKeyStable` proves that items of equal key keep their order).
   */
  function SortByKey(s: seq<ItemId>, key: ItemId -> real): (r: seq<ItemId>)
    ensures |r| == |s| && multiset(r) == multiset(s)
    decreases |s|
  {
    if |s| == 0 then []
    else
      assert s == s[..|s| - 1] + [s[|s| - 1]];
      InsertByKey(s[|s| - 1], SortByKey(s[..|s| - 1], key), key)
  }

  /** The sorted list is in nondecreasing key order. */
  lemma {:induction false} SortByKeySorted(s: seq<ItemId>, key: ItemId -> real)
    ensures SortedBy(SortByKey(s, key), key)
    decreases |s|
  {
    if |s| > 0 {
      SortByKeySorted(s[..|s| - 1], key);
      InsertByKeySorted(s[|s| - 1], SortByKey(s[..|s| - 1], key), key);
    }
  }

  /** The items of `s` whose key is k, in their order in `s`. */
  function KeyClass(s: seq<ItemId>, key: ItemId -> real, k: real): seq<ItemId>
    decreases |s|
  {
    if |s| == 0 then [] else (if key(s[0]) == k then [s[0]] else []) + KeyClass(s[1..], key, k)
  }

  lemma {:induction false} KeyClassAppend(a: seq<ItemId>, b: seq<ItemId>, key: ItemId -> real, k: real)
    ensures KeyClass(a + b, key, k) == KeyClass(a, key, k) + KeyClass(b, key, k)
    decreases |a|
  {
    if |a| == 0 {
      assert a + b == b;
    } else {
      var head := if key(a[0]) == k then [a[0]] else [];
      assert (a + b)[0] == a[0] && (a + b)[1..] == a[1..] + b;
      KeyClassAppend(a[1..], b, key, k);
      ConcatAssoc(head, KeyClass(a[1..], key, k), KeyClass(b, key, k));
    }
  }

  /** A sorted list whose first key is above k holds no item of key k. */
  lemma {:induction false} KeyClassAbove(t: seq<ItemId>, key: ItemId -> real, k: real)
    requires SortedBy(t, key) && (|t| > 0 ==> key(t[0]) > k)
    ensures KeyClass(t, key, k) == []
    decreases |t|
  {
    if |t| > 0 {
      assert |t| > 1 ==> key(t[0]) <= key(t[1]);
      KeyClassAbove(t[1..], key, k);
    }
  }

  lemma KeyClassSingle(x: ItemId, key: ItemId -> real, k: real)
    ensures KeyClass([x], key, k) == if key(x) == k then [x] else []
  {
    assert [x][1..] == [];
    assert KeyClass([x][1..], key, k) == [];
  }

  /** Inserting into a sorted list puts x after every item of its own key. */
  lemma {:induction false} InsertByKeyClass(x: ItemId, t: seq<ItemId>, key: ItemId -> real, k: real)
    requires SortedBy(t, key)
    ensures KeyClass(InsertByKey(x, t, key), key, k) == KeyClass(t, key, k) + KeyClass([x], key, k)
    decreases |t|
  {
    KeyClassSingle(x, key, k);
    if |t| == 0 {
    } else if key(x) < key(t[0]) {
      InsertFrontClass(x, t, key, k);
    } else {
      InsertByKeyClass(x, t[1..], key, k);
      InsertSkip(x, t, key);
      PrependClass(t, InsertByKey(x, t[1..], key), KeyClass([x], key, k), key, k);
    }
  }

  /** x goes in front of a sorted list whose keys are all above its own. */
  lemma InsertFrontClass(x: ItemId, t: seq<ItemId>, key: ItemId -> real, k: real)
    requires SortedBy(t, key) && |t| > 0 && key(x) < key(t[0])
    requires KeyClass([x], key, k) == if key(x) == k then [x] else []
    ensures KeyClass(InsertByKey(x, t, key), key, k) == KeyClass(t, key, k) + KeyClass([x], key, k)
  {
    assert InsertByKey(x, t, key) == [x] + t;
    KeyClassAppend([x], t, key, k);
    if key(x) == k {
      KeyClassAbove(t, key, k);
    }
  }

  /** Putting the first item of t in front of a list whose class is that of t's tail plus a suffix. */
  lemma PrependClass(t: seq<ItemId>, rest: seq<ItemId>, suffix: seq<ItemId>, key: ItemId -> real, k: real)
    requires |t| > 0 && KeyClass(rest, key, k) == KeyClass(t[1..], key, k) + suffix
    ensures KeyClass([t[0]] + rest, key, k) == KeyClass(t, key, k) + suffix
  {
    assert t == [t[0]] + t[1..];
    KeyClassAppend([t[0]], rest, key, k);
    KeyClassAppend([t[0]], t[1..], key, k);
    ConcatAssoc(KeyClass([t[0]], key, k), KeyClass(t[1..], key, k), suffix);
  }

  /** Past an item whose key is not above x's, the insertion keeps that item in front. */
  lemma InsertSkip(x: ItemId, t: seq<ItemId>, key: ItemId -> real)
    requires |t| > 0 && key(x) >= key(t[0])
    ensures InsertByKey(x, t, key) == [t[0]] + InsertByKey(x, t[1..], key)
  {
  }

  lemma ConcatAssoc(a: seq<ItemId>, b: seq<ItemId>, c: seq<ItemId>)
    ensures a + (b + c) == (a + b) + c
  {
  }

  /** `sort_by` is stable: the items of each key keep their relative order. */
  lemma {:induction false} SortByKeyStable(s: seq<ItemId>, key: ItemId -> real, k: real)
    ensures KeyClass(SortByKey(s, key), key, k) == KeyClass(s, key, k)
    decreases |s|
  {
    if |s| > 0 {
      var init, last := s[..|s| - 1], s[|s| - 1];
      SortByKeyStable(init, key, k);
      SortByKeySorted(init, key);
      InsertByKeyClass(last, SortByKey(init, key), key, k);
      assert s == init + [last];
      KeyClassAppend(init, [last], key, k);
    }
  }

  // ---------------------------------------------------------------------------
  // split

  /** `SplitInfo`: the two halves and the SAH cost of splitting there. */
  datatype SplitInfo = SplitInfo(first: seq<ItemId>, second: seq<ItemId>, cost: real)

  /**
   * The outcome of `split`. With a parent area of 0 every cost is NaN or infinite,
   * no cost is below the initial infinity, and the final `unwrap` panics.
   */
  datatype SplitOutcome = Split(info: SplitInfo) | UnwrapPanic

  /** The SAH cost of cutting `sorted` before position k. */
  function SplitCost(sorted: seq<ItemId>, k: nat, boundsOf: BoundsOf, parentArea: real): real
    requires 0 < k < |sorted| && parentArea != 0.0
  {
    CostNode
      + CostLeaf * Area(ListBounds(sorted[..k], boundsOf)) / parentArea * k as real
      + CostLeaf * Area(ListBounds(sorted[k..], boundsOf)) / parentArea * (|sorted| - k) as real
  }

  /** The costs of all cuts of `sorted`, as a function of the cut position. */
  function CutCosts(sorted: seq<ItemId>, boundsOf: BoundsOf, parentArea: real): nat -> real
    requires parentArea != 0.0
  {
    k => if 0 < k < |sorted| then SplitCost(sorted, k, boundsOf, parentArea) else 0.0
  }

  /** The cut of `sorted` before position k, at the given cost. */
  function CutAt(sorted: seq<ItemId>, k: nat, costOf: nat -> real): (r: SplitInfo)
    requires 0 < k < |sorted|
    ensures r.first + r.second == sorted && |r.first| == k
  {
    assert sorted[..k] + sorted[k..] == sorted;
    SplitInfo(sorted[..k], sorted[k..], costOf(k))
  }

  /**
   * The loop of `split` from cut i on, `best` holding the cheapest cut so far
   * (None while `min_cost` is still infinite): a cut replaces it only when strictly cheaper.
   */
  function BestCutFrom(sorted: seq<ItemId>, costOf: nat -> real, i: nat, best: Option<SplitInfo>): (r: Option<SplitInfo>)
    requires 0 < i <= |sorted|
    requires best.Some? ==> best.value.first + best.value.second == sorted && 0 < |best.value.first| < i
    ensures r.Some? ==> r.value.first + r.value.second == sorted && 0 < |r.value.first| < |sorted|
    ensures best.Some? || i < |sorted| ==> r.Some?
    decreases |sorted| - i
  {
    if i == |sorted| then best
    else
      var cut := CutAt(sorted, i, costOf);
      var best' := if best.None? || cut.cost < best.value.cost then Some(cut) else best;
      BestCutFrom(sorted, costOf, i + 1, best')
  }

  /** `split`: sort along the axis, then take the first cheapest cut. */
  function SplitOf(items: seq<ItemId>, boundsOf: BoundsOf, axis: nat, parentArea: real): (r: SplitOutcome)
    requires |items| >= 2 && axis < 3
    ensures r.Split? <==> parentArea != 0.0
    ensures r.Split? ==>
      r.info.first + r.info.second == SortByKey(items, AxisKey(boundsOf, axis)) &&
      |r.info.first| > 0 && |r.info.second| > 0
  {
    if parentArea == 0.0 then UnwrapPanic
    else
      var sorted := SortByKey(items, AxisKey(boundsOf, axis));
      var best := BestCutFrom(sorted, CutCosts(sorted, boundsOf, parentArea), 1, None);
      Split(best.value)
  }

  /**
   * `info` is the cut before position |info.first|, no cut before `upTo` is cheaper,
   * and every earlier cut is strictly dearer: the first of the cheapest cuts.
   */
  ghost predicate FirstCheapest(sorted: seq<ItemId>, costOf: nat -> real, info: SplitInfo, upTo: nat)
  {
    0 < |info.first| < upTo <= |sorted| &&
    info == CutAt(sorted, |info.first|, costOf) &&
    forall k :: 0 < k < upTo ==>
      info.cost <= costOf(k) && (k < |info.first| ==> info.cost < costOf(k))
  }

  lemma {:induction false} BestCutFromFirstCheapest(sorted: seq<ItemId>, costOf: nat -> real, i: nat, best: Option<SplitInfo>)
    requires 0 < i <= |sorted| && |sorted| >= 2
    requires best.Some? ==> best.value.first + best.value.second == sorted && 0 < |best.value.first| < i
    requires best.None? ==> i == 1
    requires best.Some? ==> FirstCheapest(sorted, costOf, best.value, i)
    ensures var r := BestCutFrom(sorted, costOf, i, best);
      r.Some? && FirstCheapest(sorted, costOf, r.value, |sorted|)
    decreases |sorted| - i
  {
    if i < |sorted| {
      var cut := CutAt(sorted, i, costOf);
      var best' := if best.None? || cut.cost < best.value.cost then Some(cut) else best;
      BestCutFromFirstCheapest(sorted, costOf, i + 1, best');
    }
  }

  /**
   * `split` on a list of at least two items: the halves are nonempty, together they
   * are the list sorted along the axis, and the cut is the first cheapest one.
   */
  lemma SplitIsFirstCheapest(items: seq<ItemId>, boundsOf: BoundsOf, axis: nat, parentArea: real)
    requires |items| >= 2 && axis < 3 && parentArea != 0.0
    ensures var r := SplitOf(items, boundsOf, axis, parentArea);
      var sorted := SortByKey(items, AxisKey(boundsOf, axis));
      r.Split? && r.info.first + r.info.second == sorted &&
      FirstCheapest(sorted, CutCosts(sorted, boundsOf, parentArea), r.info, |sorted|)
  {
    var sorted := SortByKey(items, AxisKey(boundsOf, axis));
    BestCutFromFirstCheapest(sorted, CutCosts(sorted, boundsOf, parentArea), 1, None);
  }

  /** One step of the loop of `split`: box both halves and weigh their areas by their counts. */
  method CutCost(sorted: seq<ItemId>, i: nat, boundsOf: BoundsOf, parentArea: real) returns (cost: real)
    requires 0 < i < |sorted| && parentArea != 0.0
    ensures cost == SplitCost(sorted, i, boundsOf, parentArea)
  {
    var first, second := sorted[..i], sorted[i..];
    var bounds0 := ItemListBounds(first, boundsOf);
    var bounds1 := ItemListBounds(second, boundsOf);
    cost := CostNode
      + CostLeaf * Area(bounds0) / parentArea * |first| as real
      + CostLeaf * Area(bounds1) / parentArea * |second| as real;
  }

  /**
   * `BvhItemList::split`: sort a copy along the axis, then try every cut, keeping
   * one only when it is strictly cheaper than the best so far.
   */
  method SplitItems(items: seq<ItemId>, boundsOf: BoundsOf, axis: nat, parentArea: real) returns (r: SplitOutcome)
    requires |items| >= 2 && axis < 3
    ensures r == SplitOf(items, boundsOf, axis, parentArea)
  {
    var sorted := SortByKey(items, AxisKey(boundsOf, axis));
    if parentArea == 0.0 {
      // every cost divides by zero: NaN or infinity, never below `min_cost`
      return UnwrapPanic;
    }
    ghost var costOf := CutCosts(sorted, boundsOf, parentArea);
    var best: Option<SplitInfo> := None;
    for i := 1 to |sorted|
      invariant i > 1 <==> best.Some?
      invariant best.Some? ==> best.value.first + best.value.second == sorted && 0 < |best.value.first| < i
      invariant BestCutFrom(sorted, costOf, 1, None) == BestCutFrom(sorted, costOf, i, best)
    {
      var first, second := sorted[..i], sorted[i..];
      var cost := CutCost(sorted, i, boundsOf, parentArea);
      assert SplitInfo(first, second, cost) == CutAt(sorted, i, costOf);
      if best.None? || cost < best.value.cost {
        best := Some(SplitInfo(first, second, cost));
      }
    }
    return Split(best.value);
  }

  // ---------------------------------------------------------------------------
  // build

  /** Two nonempty halves that together hold exactly the items of the list. */
  ghost predicate IsSplitOf(items: seq<ItemId>, info: SplitInfo)
  {
    |info.first| > 0 && |info.second| > 0 && |info.first| + |info.second| == |items| &&
    multiset(info.first + info.second) == multiset(items)
  }

  /** A split along any axis keeps every item of the list exactly once. */
  lemma SplitOfIsSplit(items: seq<ItemId>, boundsOf: BoundsOf, axis: nat, parentArea: real)
    requires |items| >= 2 && axis < 3 && parentArea != 0.0
    ensures IsSplitOf(items, SplitOf(items, boundsOf, axis, parentArea).info)
  {
    var info := SplitOf(items, boundsOf, axis, parentArea).info;
    assert multiset(info.first + info.second) == multiset(SortByKey(items, AxisKey(boundsOf, axis)));
  }

  /** The splits along x, y and z of a list of at least two items in a box of nonzero area. */
  function AxisSplits(items: seq<ItemId>, boundsOf: BoundsOf, parentArea: real): (r: seq<SplitInfo>)
    requires |items| >= 2 && parentArea != 0.0
    ensures |r| == 3 && forall axis :: 0 <= axis < 3 ==> IsSplitOf(items, r[axis])
  {
    seq(3, axis requires 0 <= axis < 3 => SplitOfIsSplit(items, boundsOf, axis, parentArea); SplitOf(items, boundsOf, axis, parentArea).info)
  }

  /**
   * The axis loop of `build` from `axis` on: a split replaces the one chosen so far
   * only when its cost is strictly below `min_cost`, which starts at the leaf cost.
   */
  function ChooseSplitFrom(items: seq<ItemId>, splits: seq<SplitInfo>, axis: nat, minCost: real, chosen: Option<SplitInfo>): (r: Option<SplitInfo>)
    requires axis <= |splits| && forall a :: 0 <= a < |splits| ==> IsSplitOf(items, splits[a])
    requires chosen.Some? ==> IsSplitOf(items, chosen.value) && chosen.value.cost == minCost
    ensures r.Some? ==> IsSplitOf(items, r.value) && r.value.cost <= minCost
    ensures r.Some? && chosen.None? ==> r.value.cost < minCost
    decreases |splits| - axis
  {
    if axis == |splits| then chosen
    else
      var info := splits[axis];
      if info.cost < minCost then ChooseSplitFrom(items, splits, axis + 1, info.cost, Some(info))
      else ChooseSplitFrom(items, splits, axis + 1, minCost, chosen)
  }

  /** The split `build` chooses for a list of at least two items, if one beats the leaf cost. */
  function ChooseSplitOf(items: seq<ItemId>, boundsOf: BoundsOf, parentArea: real): (r: Option<SplitInfo>)
    requires |items| >= 2 && parentArea != 0.0
    ensures r.Some? ==> IsSplitOf(items, r.value) && r.value.cost < CostLeaf * |items| as real
  {
    ChooseSplitFrom(items, AxisSplits(items, boundsOf, parentArea), 0, CostLeaf * |items| as real, None)
  }

  /** The items of a builder tree, leaf by leaf from first to second. */
  function TreeItems(t: Builder): seq<ItemId>
  {
    match t
    case Node(_, first, second) => TreeItems(first) + TreeItems(second)
    case Leaf(_, items) => items
  }

  /** A leaf over a nonempty list, boxed by `BvhItemList::bounds`. */
  function LeafOf(items: seq<ItemId>, boundsOf: BoundsOf): Builder
    requires |items| > 0
  {
    Leaf(ListBounds(items, boundsOf), items)
  }

  /** What `build` returns, or the panic it ends in. */
  datatype BuildOutcome = Built(tree: Builder) | AlreadyBuilt | SplitPanicked

  /**
   * `BvhBuilder::build`: a leaf of at most one item stays a leaf; otherwise the cheapest
   * split over the three axes, if cheaper than the leaf, is built recursively under a
   * node. A node panics with "Already built"; a leaf of zero area panics in `split`.
   */
  function BuildOf(b: Builder, boundsOf: BoundsOf): (r: BuildOutcome)
    ensures r.AlreadyBuilt? <==> b.Node?
    ensures b.Leaf? && |b.items| <= 1 ==> r == Built(b)
    decreases if b.Leaf? then |b.items| else 0
  {
    match b
    case Node(_, _, _) => AlreadyBuilt
    case Leaf(bounds, items) =>
      if |items| <= 1 then Built(b)
      else if Area(bounds) == 0.0 then SplitPanicked
      else
        var choice := ChooseSplitOf(items, boundsOf, Area(bounds));
        if choice.None? then Built(b)
        else
          var info := choice.value;
          var first := BuildOf(LeafOf(info.first, boundsOf), boundsOf);
          var second := BuildOf(LeafOf(info.second, boundsOf), boundsOf);
          if first.Built? && second.Built? then Built(Node(bounds, first.tree, second.tree))
          else SplitPanicked
  }

  /** `BvhBuilder::new`: one leaf over all items; `items[0]` panics on an empty list. */
  method NewBuilder(items: seq<ItemId>, boundsOf: BoundsOf) returns (b: Builder)
    requires |items| > 0
    ensures b == LeafOf(items, boundsOf)
  {
    var bounds := ItemListBounds(items, boundsOf);
    b := Leaf(bounds, items);
  }

  /** A built tree holds the leaf's items, each as often as before. */
  lemma {:induction false} BuildKeepsItems(b: Builder, boundsOf: BoundsOf)
    requires b.Leaf?
    ensures var r := BuildOf(b, boundsOf); r.Built? ==> multiset(TreeItems(r.tree)) == multiset(b.items)
    decreases |b.items|
  {
    var items := b.items;
    if |items| <= 1 || Area(b.bounds) == 0.0 {
      return;
    }
    var choice := ChooseSplitOf(items, boundsOf, Area(b.bounds));
    if choice.None? {
      assert BuildOf(b, boundsOf) == Built(b);
      return;
    }
    var info := choice.value;
    var first := BuildOf(LeafOf(info.first, boundsOf), boundsOf);
    var second := BuildOf(LeafOf(info.second, boundsOf), boundsOf);
    if first.Built? && second.Built? {
      BuildKeepsItems(LeafOf(info.first, boundsOf), boundsOf);
      BuildKeepsItems(LeafOf(info.second, boundsOf), boundsOf);
      assert BuildOf(b, boundsOf) == Built(Node(b.bounds, first.tree, second.tree));
      NodeKeepsItems(first.tree, second.tree, info, items);
    } else {
      assert BuildOf(b, boundsOf) == SplitPanicked;
    }
  }

  /** A node over two subtrees that hold the halves of a split holds the split list. */
  lemma NodeKeepsItems(first: Builder, second: Builder, info: SplitInfo, items: seq<ItemId>)
    requires IsSplitOf(items, info)
    requires multiset(TreeItems(first)) == multiset(info.first)
    requires multiset(TreeItems(second)) == multiset(info.second)
    ensures multiset(TreeItems(first) + TreeItems(second)) == multiset(items)
  {
  }

  /** The two leaves a chosen split becomes. */
  function SplitLeaves(info: SplitInfo, boundsOf: BoundsOf): (Builder, Builder)
    requires |info.first| > 0 && |info.second| > 0
  {
    (LeafOf(info.first, boundsOf), LeafOf(info.second, boundsOf))
  }

  /** One turn of the axis loop: the split of this axis replaces the choice only when cheaper. */
  lemma ChooseSplitStep(items: seq<ItemId>, splits: seq<SplitInfo>, axis: nat, minCost: real, chosen: Option<SplitInfo>)
    requires axis < |splits| && forall a :: 0 <= a < |splits| ==> IsSplitOf(items, splits[a])
    requires chosen.Some? ==> IsSplitOf(items, chosen.value) && chosen.value.cost == minCost
    ensures ChooseSplitFrom(items, splits, axis, minCost, chosen) ==
      if splits[axis].cost < minCost then ChooseSplitFrom(items, splits, axis + 1, splits[axis].cost, Some(splits[axis]))
      else ChooseSplitFrom(items, splits, axis + 1, minCost, chosen)
  {
  }

  /** Turn both halves of a split into leaves, each boxed by `BvhItemList::bounds`. */
  method MakeLeaves(info: SplitInfo, boundsOf: BoundsOf) returns (leaves: (Builder, Builder))
    requires |info.first| > 0 && |info.second| > 0
    ensures leaves == SplitLeaves(info, boundsOf)
  {
    var firstBounds := ItemListBounds(info.first, boundsOf);
    var secondBounds := ItemListBounds(info.second, boundsOf);
    leaves := (Leaf(firstBounds, info.first), Leaf(secondBounds, info.second));
  }

  /** What the axis loop keeps: the cheapest split so far as two leaves, its cost and (for the proof) its halves. */
  ghost predicate Keeps(items: seq<ItemId>, boundsOf: BoundsOf, minCost: real, minSplit: Option<(Builder, Builder)>, chosen: Option<SplitInfo>)
  {
    (chosen.Some? <==> minSplit.Some?) &&
    (chosen.Some? ==>
      IsSplitOf(items, chosen.value) && chosen.value.cost == minCost &&
      minSplit.value == SplitLeaves(chosen.value, boundsOf))
  }

  /** One turn of the axis loop of `build`: split along the axis and keep the split if strictly cheaper. */
  method ConsiderAxis(items: seq<ItemId>, boundsOf: BoundsOf, parentArea: real, axis: nat,
                      minCost: real, minSplit: Option<(Builder, Builder)>, ghost chosen: Option<SplitInfo>)
    returns (panicked: bool, minCost': real, minSplit': Option<(Builder, Builder)>, ghost chosen': Option<SplitInfo>)
    requires |items| >= 2 && axis < 3
    requires Keeps(items, boundsOf, minCost, minSplit, chosen)
    ensures panicked <==> parentArea == 0.0
    ensures !panicked ==>
      Keeps(items, boundsOf, minCost', minSplit', chosen') &&
      var splits := AxisSplits(items, boundsOf, parentArea);
      ChooseSplitFrom(items, splits, axis, minCost, chosen) == ChooseSplitFrom(items, splits, axis + 1, minCost', chosen')
  {
    var split := SplitItems(items, boundsOf, axis, parentArea);
    if split.UnwrapPanic? {
      return true, minCost, minSplit, chosen;
    }
    var info := split.info;
    ghost var splits := AxisSplits(items, boundsOf, parentArea);
    assert info == splits[axis];
    ChooseSplitStep(items, splits, axis, minCost, chosen);
    var leaves := MakeLeaves(info, boundsOf);
    if info.cost < minCost {
      return false, info.cost, Some(leaves), Some(info);
    }
    return false, minCost, minSplit, chosen;
  }

  /**
   * The axis loop of `build`: split along x, y and z, turning each half into a
   * leaf, and keep the split whose cost is strictly below the best so far,
   * starting from the cost of leaving the list a leaf. `panicked` is the panic
   * of `split` on a box of zero area.
   */
  method ChooseSplit(items: seq<ItemId>, boundsOf: BoundsOf, parentArea: real)
    returns (panicked: bool, minSplit: Option<(Builder, Builder)>)
    requires |items| >= 2
    ensures panicked <==> parentArea == 0.0
    ensures !panicked ==>
      var c := ChooseSplitOf(items, boundsOf, parentArea);
      (minSplit.Some? <==> c.Some?) && (c.Some? ==> minSplit.value == SplitLeaves(c.value, boundsOf))
  {
    var minCost := CostLeaf * |items| as real;
    minSplit := None;
    ghost var chosen: Option<SplitInfo> := None;
    for axis := 0 to 3
      invariant axis > 0 ==> parentArea != 0.0
      invariant Keeps(items, boundsOf, minCost, minSplit, chosen)
      invariant parentArea != 0.0 ==>
        ChooseSplitOf(items, boundsOf, parentArea) ==
        ChooseSplitFrom(items, AxisSplits(items, boundsOf, parentArea), axis, minCost, chosen)
    {
      panicked, minCost, minSplit, chosen := ConsiderAxis(items, boundsOf, parentArea, axis, minCost, minSplit, chosen);
      if panicked {
        return true, None;
      }
    }
    return false, minSplit;
  }

  /**
   * `BvhBuilder::build`: keep a leaf of at most one item, otherwise choose a split
   * and, if one beats the leaf, build both halves the same way under a node.
   */
  method Build(b: Builder, boundsOf: BoundsOf) returns (r: BuildOutcome)
    ensures r == BuildOf(b, boundsOf)
    decreases if b.Leaf? then |b.items| else 0
  {
    match b
    case Node(_, _, _) =>
      return AlreadyBuilt;
    case Leaf(bounds, items) =>
      if |items| <= 1 {
        return Built(b);
      }
      var panicked, minSplit := ChooseSplit(items, boundsOf, Area(bounds));
      if panicked {
        return SplitPanicked;
      }
      if minSplit.None? {
        return Built(b);
      }
      var (firstLeaf, secondLeaf) := minSplit.value;
      var first := Build(firstLeaf, boundsOf);
      var second := Build(secondLeaf, boundsOf);
      if first.Built? && second.Built? {
        return Built(Node(bounds, first.tree, second.tree));
      }
      return SplitPanicked;
  }

  // ---------------------------------------------------------------------------
  // Flattening

  /** The item entries that follow a leaf entry, in the leaf's order. */
  function ItemEntries(items: seq<ItemId>): (r: seq<FlatNode>)
    ensures |r| == |items| && forall k :: 0 <= k < |items| ==> r[k] == ItemEntry(items[k])
  {
    seq(|items|, k requires 0 <= k < |items| => ItemEntry(items[k]))
  }

  /**
   * The array `flatten` produces for a tree, in depth-first order: a node entry
   * whose first child follows it and whose second child starts `second_offset`
   * entries later, or a leaf entry followed by its items. The first entry carries
   * the tree's box.
   */
  function Flat(t: Builder): (r: seq<FlatNode>)
    ensures |r| > 0 && !r[0].ItemEntry? && r[0].bounds == t.bounds
  {
    match t
    case Node(bounds, first, second) =>
      [NodeEntry(bounds, 1 + |Flat(first)|)] + Flat(first) + Flat(second)
    case Leaf(bounds, items) =>
      [LeafEntry(bounds, |items|)] + ItemEntries(items)
  }

  /** The items of a flat array, in order. */
  function ItemsOf(s: seq<FlatNode>): seq<ItemId>
    decreases |s|
  {
    if |s| == 0 then []
    else (if s[0].ItemEntry? then [s[0].item] else []) + ItemsOf(s[1..])
  }

  lemma {:induction false} ItemsOfAppend(a: seq<FlatNode>, b: seq<FlatNode>)
    ensures ItemsOf(a + b) == ItemsOf(a) + ItemsOf(b)
    decreases |a|
  {
    if |a| > 0 {
      assert (a + b)[0] == a[0];
      assert (a + b)[1..] == a[1..] + b;
      ItemsOfAppend(a[1..], b);
    } else {
      assert a + b == b;
    }
  }

  lemma {:induction false} ItemsOfItemEntries(items: seq<ItemId>)
    ensures ItemsOf(ItemEntries(items)) == items
    decreases |items|
  {
    if |items| > 0 {
      assert ItemEntries(items)[1..] == ItemEntries(items[1..]);
      ItemsOfItemEntries(items[1..]);
    }
  }

  /** The flat array holds exactly the tree's items, in the tree's order. */
  lemma {:induction false} FlatKeepsItems(t: Builder)
    ensures ItemsOf(Flat(t)) == TreeItems(t)
  {
    match t
    case Node(bounds, first, second) =>
      ItemsOfAppend([NodeEntry(bounds, 1 + |Flat(first)|)], Flat(first));
      ItemsOfAppend([NodeEntry(bounds, 1 + |Flat(first)|)] + Flat(first), Flat(second));
      FlatKeepsItems(first);
      FlatKeepsItems(second);
    case Leaf(bounds, items) =>
      ItemsOfAppend([LeafEntry(bounds, |items|)], ItemEntries(items));
      ItemsOfItemEntries(items);
  }

  /**
   * The layout `intersect` walks: a node entry's first child starts right after
   * it and its second child at `second_offset`, each a linked array of its own
   * and together filling the rest; a leaf entry is followed by exactly
   * `item_count` item entries.
   */
  ghost predicate Linked(s: seq<FlatNode>)
    decreases |s|
  {
    |s| > 0 &&
    match s[0]
    case ItemEntry(_) => false
    case LeafEntry(_, count) => |s| == count + 1 && forall k :: 1 <= k < |s| ==> s[k].ItemEntry?
    case NodeEntry(_, offset) => 1 < offset < |s| && Linked(s[1..offset]) && Linked(s[offset..])
  }

  /** Every flattened tree has the layout `intersect` relies on. */
  lemma {:induction false} FlatLinked(t: Builder)
    ensures Linked(Flat(t))
  {
    match t
    case Node(bounds, first, second) =>
      var s := Flat(t);
      var offset := 1 + |Flat(first)|;
      assert s[1..offset] == Flat(first);
      assert s[offset..] == Flat(second);
      FlatLinked(first);
      FlatLinked(second);
    case Leaf(bounds, items) =>
  }

  /** The mutable state of `flatten`'s inner `traverse`: the array built so far and the running index. */
  class Flattener {
    var nodes: seq<FlatNode>
    var index: nat

    constructor ()
      ensures nodes == [] && index == 0
    {
      nodes := [];
      index := 0;
    }

    /**
     * `traverse` in `flatten`: append the tree's entries. A node is pushed with a
     * provisional offset of 0 and patched once its first child is in place; a
     * leaf advances the index by its item count plus one before pushing.
     */
    method Traverse(b: Builder)
      requires index == |nodes|
      modifies this
      ensures nodes == old(nodes) + Flat(b) && index == |nodes|
      decreases b
    {
      match b
      case Node(bounds, first, second) =>
        ghost var before := nodes;
        var nodeIndex := index;
        nodes := nodes + [NodeEntry(bounds, 0)];
        index := index + 1;
        Traverse(first);
        nodes := nodes[nodeIndex := NodeEntry(bounds, index - nodeIndex)];
        PatchEntry(before, NodeEntry(bounds, 0), NodeEntry(bounds, 1 + |Flat(first)|), Flat(first));
        Traverse(second);
        FlatOfNode(b);
        AppendNode(before, NodeEntry(bounds, 1 + |Flat(first)|), Flat(first), Flat(second));
      case Leaf(bounds, items) =>
        PushLeaf(bounds, items);
    }

    /** Overwriting the entry just after `before` leaves the rest in place. */
    static lemma PatchEntry(before: seq<FlatNode>, e0: FlatNode, e: FlatNode, rest: seq<FlatNode>)
      ensures (before + [e0] + rest)[|before| := e] == before + [e] + rest
    {
    }

    /** Appending the entry and the two subtrees one after another appends the node's array. */
    static lemma AppendNode(before: seq<FlatNode>, e: FlatNode, a: seq<FlatNode>, b: seq<FlatNode>)
      ensures before + [e] + a + b == before + ([e] + a + b)
    {
    }

    /** The leaf case of `traverse`: advance the index past the leaf and its items, then push them. */
    method PushLeaf(bounds: Bounds, items: seq<ItemId>)
      requires index == |nodes|
      modifies this
      ensures nodes == old(nodes) + Flat(Leaf(bounds, items)) && index == |nodes|
    {
      index := index + |items| + 1;
      nodes := nodes + [LeafEntry(bounds, |items|)];
      for k := 0 to |items|
        invariant nodes == old(nodes) + [LeafEntry(bounds, |items|)] + ItemEntries(items)[..k]
        invariant index == |old(nodes)| + |items| + 1
      {
        assert ItemEntries(items)[..k + 1] == ItemEntries(items)[..k] + [ItemEntry(items[k])];
        nodes := nodes + [ItemEntry(items[k])];
      }
      assert ItemEntries(items)[..|items|] == ItemEntries(items);
    }
  }

  /** `BvhBuilder::flatten`: the flat array of a built tree. */
  method Flatten(b: Builder) returns (nodes: seq<FlatNode>)
    ensures nodes == Flat(b)
  {
    var flattener := new Flattener();
    flattener.Traverse(b);
    nodes := flattener.nodes;
  }

  // ---------------------------------------------------------------------------
  // Building the flat hierarchy

  /** What `Bvh::build` returns, or the panic it ends in. */
  datatype BvhOutcome = BvhBuilt(nodes: seq<FlatNode>) | BvhPanicked

  /**
   * `Bvh::build`: one leaf over all items, built, then flattened. An empty item
   * list panics at `items[0]` in `BvhItemList::bounds`, and `build` can panic in `split`.
   */
  function BuildBvhOf(items: seq<ItemId>, boundsOf: BoundsOf): BvhOutcome
  {
    if |items| == 0 then BvhPanicked
    else
      match BuildOf(LeafOf(items, boundsOf), boundsOf)
      case Built(t) => BvhBuilt(Flat(t))
      case _ => BvhPanicked
  }

  method BuildBvh(items: seq<ItemId>, boundsOf: BoundsOf) returns (r: BvhOutcome)
    ensures r == BuildBvhOf(items, boundsOf)
  {
    if |items| == 0 {
      return BvhPanicked;
    }
    var builder := NewBuilder(items, boundsOf);
    var built := Build(builder, boundsOf);
    if !built.Built? {
      return BvhPanicked;
    }
    var nodes := Flatten(built.tree);
    return BvhBuilt(nodes);
  }

  /** A built tree keeps the box of the leaf it was built from. */
  lemma {:induction false} BuildKeepsBounds(b: Builder, boundsOf: BoundsOf)
    requires b.Leaf?
    ensures var r := BuildOf(b, boundsOf); r.Built? ==> r.tree.bounds == b.bounds
  {
  }

  /** `Bvh::bounds`: the box of the root entry; the root is never an item entry. */
  function BvhBounds(nodes: seq<FlatNode>): Bounds
    requires |nodes| > 0 && !nodes[0].ItemEntry?
  {
    nodes[0].bounds
  }

  /**
   * A BVH that was built holds every input item exactly as often as the input
   * does, in the layout `intersect` walks, under a root box enclosing every item's box.
   */
  lemma BuiltBvhWellFormed(items: seq<ItemId>, boundsOf: BoundsOf)
    ensures var r := BuildBvhOf(items, boundsOf);
      r.BvhBuilt? ==>
        Linked(r.nodes) && multiset(ItemsOf(r.nodes)) == multiset(items) &&
        forall k :: 0 <= k < |items| ==> Encloses(BvhBounds(r.nodes), boundsOf(items[k]))
  {
    var r := BuildBvhOf(items, boundsOf);
    if r.BvhBuilt? {
      var leaf := LeafOf(items, boundsOf);
      var t := BuildOf(leaf, boundsOf).tree;
      BuildKeepsItems(leaf, boundsOf);
      BuildKeepsBounds(leaf, boundsOf);
      FlatKeepsItems(t);
      FlatLinked(t);
      ListBoundsEncloses(items, boundsOf);
    }
  }

  // ---------------------------------------------------------------------------
  // Closest-hit traversal

  /** `Bounds::intersect` as the traversal asks it: does the ray meet the box within [0, t_max]? */
  predicate BoxHit(b: Bounds, ray: Ray)
  {
    SlabFrom(b, ray.origin, ray.invDir, 0, 0.0, ray.tMax).Some?
  }

  /**
   * How a node combines its children's hits: the first one only when it is
   * strictly closer, so a tie goes to the second.
   */
  function Closer(first: Option<Hit>, second: Option<Hit>): (r: Option<Hit>)
    ensures r.None? <==> first.None? && second.None?
    ensures r.Some? ==> r == first || r == second
    ensures r.Some? && first.Some? ==> r.value.tHit <= first.value.tHit
    ensures r.Some? && second.Some? ==> r.value.tHit <= second.value.tHit
    ensures first.Some? && second.Some? && first.value.tHit == second.value.tHit ==> r == second
  {
    if first.Some? && second.Some? then
      if first.value.tHit < second.value.tHit then first else second
    else if first.Some? then first
    else second
  }

  /** One turn of the leaf loop: a hit replaces the closest so far only when strictly closer. */
  function KeepCloser(min: Option<Hit>, item: ItemId, hitOf: HitOf): Option<Hit>
  {
    match hitOf(item)
    case None => min
    case Some(t) => if min.None? || t < min.value.tHit then Some(Hit(item, t)) else min
  }

  /** The leaf loop of `intersect` over the leaf's items in order. */
  function LeafHit(items: seq<ItemId>, hitOf: HitOf): Option<Hit>
    decreases |items|
  {
    if |items| == 0 then None
    else KeepCloser(LeafHit(items[..|items| - 1], hitOf), items[|items| - 1], hitOf)
  }

  /**
   * A leaf reports no hit exactly when none of its items is hit; otherwise it
   * reports one of its items with that item's own `t_hit`, no other item is hit
   * closer, and every item before it is hit strictly farther: the first closest.
   */
  lemma {:induction false} LeafHitClosest(items: seq<ItemId>, hitOf: HitOf)
    ensures var r := LeafHit(items, hitOf);
      (r.None? <==> forall k :: 0 <= k < |items| ==> hitOf(items[k]).None?) &&
      (r.Some? ==>
        exists k :: 0 <= k < |items| && items[k] == r.value.item && hitOf(items[k]) == Some(r.value.tHit) &&
          (forall j :: 0 <= j < k && hitOf(items[j]).Some? ==> r.value.tHit < hitOf(items[j]).value)) &&
      (r.Some? ==> forall k :: 0 <= k < |items| && hitOf(items[k]).Some? ==> r.value.tHit <= hitOf(items[k]).value)
    decreases |items|
  {
    if |items| > 0 {
      var n := |items| - 1;
      var prefix := items[..n];
      LeafHitClosest(prefix, hitOf);
      var prev := LeafHit(prefix, hitOf);
      var r := LeafHit(items, hitOf);
      assert forall k :: 0 <= k < n ==> items[k] == prefix[k];
      if r.Some? && r != prev {
        assert r.value.item == items[n];
      }
    }
  }

  /**
   * The closest hit of the traversal over the tree a flat array was built from:
   * a box the ray misses hides everything below it.
   */
  function TreeHit(t: Builder, ray: Ray, hitOf: HitOf): Option<Hit>
  {
    if !BoxHit(t.bounds, ray) then None
    else
      match t
      case Node(_, first, second) => Closer(TreeHit(first, ray, hitOf), TreeHit(second, ray, hitOf))
      case Leaf(_, items) => LeafHit(items, hitOf)
  }

  /** The items whose leaf the ray reaches: every box on the way down is hit. */
  function ReachedItems(t: Builder, ray: Ray): seq<ItemId>
  {
    if !BoxHit(t.bounds, ray) then []
    else
      match t
      case Node(_, first, second) => ReachedItems(first, ray) + ReachedItems(second, ray)
      case Leaf(_, items) => items
  }

  /**
   * `r` is the closest hit among `items`: none exactly when no item is hit,
   * otherwise one of the items with its own `t_hit`, and no item is hit closer.
   */
  ghost predicate IsClosestHit(r: Option<Hit>, items: seq<ItemId>, hitOf: HitOf)
  {
    (r.None? <==> forall k :: 0 <= k < |items| ==> hitOf(items[k]).None?) &&
    (r.Some? ==> r.value.item in items && hitOf(r.value.item) == Some(r.value.tHit)) &&
    (r.Some? ==> forall k :: 0 <= k < |items| && hitOf(items[k]).Some? ==> r.value.tHit <= hitOf(items[k]).value)
  }

  /** A node's choice between the closest hits of its children is the closest hit of both item lists together. */
  lemma CloserIsClosest(a: seq<ItemId>, b: seq<ItemId>, first: Option<Hit>, second: Option<Hit>, hitOf: HitOf)
    requires IsClosestHit(first, a, hitOf) && IsClosestHit(second, b, hitOf)
    ensures IsClosestHit(Closer(first, second), a + b, hitOf)
  {
    var items, r := a + b, Closer(first, second);
    forall k | 0 <= k < |items|
      ensures items[k] == if k < |a| then a[k] else b[k - |a|]
    {
    }
    assert forall k :: 0 <= k < |a| ==> items[k] == a[k];
    assert forall k :: 0 <= k < |b| ==> items[|a| + k] == b[k];
    if r.Some? {
      assert r.value.item in a || r.value.item in b;
      forall k | 0 <= k < |items| && hitOf(items[k]).Some?
        ensures r.value.tHit <= hitOf(items[k]).value
      {
        if k < |a| {
          assert items[k] == a[k] && hitOf(a[k]).Some?;
        } else {
          assert items[k] == b[k - |a|] && hitOf(b[k - |a|]).Some?;
        }
      }
    }
  }

  /** The traversal finds the closest hit among the items of the leaves the ray reaches. */
  lemma {:induction false} TreeHitClosest(t: Builder, ray: Ray, hitOf: HitOf)
    ensures IsClosestHit(TreeHit(t, ray, hitOf), ReachedItems(t, ray), hitOf)
  {
    if BoxHit(t.bounds, ray) {
      match t
      case Node(_, first, second) =>
        TreeHitClosest(first, ray, hitOf);
        TreeHitClosest(second, ray, hitOf);
        CloserIsClosest(ReachedItems(first, ray), ReachedItems(second, ray), TreeHit(first, ray, hitOf), TreeHit(second, ray, hitOf), hitOf);
      case Leaf(_, items) =>
        LeafHitClosest(items, hitOf);
    }
  }

  /** A slice of a slice is a slice of the whole. */
  lemma SliceOfSlice(nodes: seq<FlatNode>, index: nat, s: seq<FlatNode>, lo: nat, hi: nat)
    requires index + |s| <= |nodes| && nodes[index..index + |s|] == s && lo <= hi <= |s|
    ensures nodes[index + lo..index + hi] == s[lo..hi]
  {
    forall k | 0 <= k < hi - lo
      ensures nodes[index + lo..index + hi][k] == s[lo..hi][k]
    {
      assert nodes[index..index + |s|][lo + k] == nodes[index + lo + k];
    }
  }

  /**
   * `traverse` in `Bvh::intersect` at `index`, where the flat array of `t` is
   * stored: skip a box the ray misses, combine the children of a node, and run
   * the leaf loop over the item entries after a leaf.
   */
  method IntersectFrom(nodes: seq<FlatNode>, index: nat, ray: Ray, hitOf: HitOf, ghost t: Builder) returns (r: Option<Hit>)
    requires index + |Flat(t)| <= |nodes| && nodes[index..index + |Flat(t)|] == Flat(t)
    ensures r == TreeHit(t, ray, hitOf)
    decreases t, 1
  {
    assert nodes[index] == Flat(t)[0];
    var entry := nodes[index];
    var boxHit := Intersect(entry.bounds, ray.origin, ray.tMax, ray.invDir);
    if boxHit.None? {
      return None;
    }
    if entry.NodeEntry? {
      r := IntersectNode(nodes, index, entry.secondOffset, ray, hitOf, t);
    } else {
      LeafSlices(nodes, index, t);
      r := LeafLoop(nodes, index, entry.itemCount, hitOf, t.items);
    }
  }

  /**
   * The node case of `traverse`: intersect the first child just after the node
   * entry and the second at `second_offset`, and keep the closer of their hits.
   */
  method IntersectNode(nodes: seq<FlatNode>, index: nat, offset: nat, ray: Ray, hitOf: HitOf, ghost t: Builder) returns (r: Option<Hit>)
    requires t.Node? && index + |Flat(t)| <= |nodes| && nodes[index..index + |Flat(t)|] == Flat(t)
    requires offset == nodes[index].secondOffset
    ensures r == Closer(TreeHit(t.first, ray, hitOf), TreeHit(t.second, ray, hitOf))
    decreases t, 0
  {
    NodeSlices(nodes, index, t);
    var first := IntersectFrom(nodes, index + 1, ray, hitOf, t.first);
    var second := IntersectFrom(nodes, index + offset, ray, hitOf, t.second);
    if first.Some? && second.Some? {
      if first.value.tHit < second.value.tHit {
        return first;
      } else {
        return second;
      }
    } else if first.Some? {
      return first;
    } else if second.Some? {
      return second;
    } else {
      return None;
    }
  }

  /** In an array holding a flattened node, the two subtrees sit after the entry and at its offset. */
  lemma {:induction false} NodeSlices(nodes: seq<FlatNode>, index: nat, t: Builder)
    requires t.Node? && index + |Flat(t)| <= |nodes| && nodes[index..index + |Flat(t)|] == Flat(t)
    ensures |Flat(t)| == 1 + |Flat(t.first)| + |Flat(t.second)|
    ensures nodes[index] == NodeEntry(t.bounds, 1 + |Flat(t.first)|)
    ensures nodes[index + 1..index + 1 + |Flat(t.first)|] == Flat(t.first)
    ensures nodes[index + 1 + |Flat(t.first)|..index + 1 + |Flat(t.first)| + |Flat(t.second)|] == Flat(t.second)
  {
    var e, a, b := NodeEntry(t.bounds, 1 + |Flat(t.first)|), Flat(t.first), Flat(t.second);
    FlatOfNode(t);
    ConcatSlices(nodes, index, Flat(t), e, a, b);
  }

  lemma {:induction false} FlatOfNode(t: Builder)
    requires t.Node?
    ensures Flat(t) == [NodeEntry(t.bounds, 1 + |Flat(t.first)|)] + Flat(t.first) + Flat(t.second)
  {
  }

  /** In an array holding a flattened leaf, its item entries follow the leaf entry. */
  lemma {:induction false} LeafSlices(nodes: seq<FlatNode>, index: nat, t: Builder)
    requires t.Leaf? && index + |Flat(t)| <= |nodes| && nodes[index..index + |Flat(t)|] == Flat(t)
    ensures nodes[index] == LeafEntry(t.bounds, |t.items|) && index + |t.items| < |nodes|
    ensures forall k :: 0 <= k < |t.items| ==> nodes[index + 1 + k] == ItemEntry(t.items[k])
  {
    var s := Flat(t);
    assert nodes[index] == s[0];
    forall k | 0 <= k < |t.items|
      ensures nodes[index + 1 + k] == ItemEntry(t.items[k])
    {
      assert nodes[index + 1 + k] == s[1 + k];
    }
  }

  /** A slice holding `[e] + a + b` holds `e` at its start, `a` after it and `b` after that. */
  lemma {:induction false} ConcatSlices(nodes: seq<FlatNode>, index: nat, s: seq<FlatNode>, e: FlatNode, a: seq<FlatNode>, b: seq<FlatNode>)
    requires s == [e] + a + b && index + |s| <= |nodes| && nodes[index..index + |s|] == s
    ensures nodes[index] == e
    ensures nodes[index + 1..index + 1 + |a|] == a
    ensures nodes[index + 1 + |a|..index + 1 + |a| + |b|] == b
  {
    assert nodes[index] == s[0];
    forall k | 0 <= k < |a|
      ensures nodes[index + 1 + k] == a[k]
    {
      assert nodes[index + 1 + k] == s[1 + k];
    }
    forall k | 0 <= k < |b|
      ensures nodes[index + 1 + |a| + k] == b[k]
    {
      assert nodes[index + 1 + |a| + k] == s[1 + |a| + k];
    }
  }

  /**
   * The leaf case of `traverse` in `Bvh::intersect`: visit the `item_count`
   * item entries after the leaf entry at `index`, keeping the closest hit.
   */
  method LeafLoop(nodes: seq<FlatNode>, index: nat, count: nat, hitOf: HitOf, ghost items: seq<ItemId>) returns (r: Option<Hit>)
    requires count == |items| && index + count < |nodes|
    requires forall k :: 0 <= k < count ==> nodes[index + 1 + k] == ItemEntry(items[k])
    ensures r == LeafHit(items, hitOf)
  {
    r := None;
    for i := 1 to count + 1
      invariant r == LeafHit(items[..i - 1], hitOf)
    {
      assert nodes[index + i] == ItemEntry(items[i - 1]);
      var item := nodes[index + i].item;
      assert items[..i][..i - 1] == items[..i - 1];
      r := KeepCloser(r, item, hitOf);
    }
    assert items[..count] == items;
  }

  /** `Bvh::intersect`: the closest hit over a BVH built from the tree `t`, starting at the root entry. */
  method IntersectBvh(nodes: seq<FlatNode>, ray: Ray, hitOf: HitOf, ghost t: Builder) returns (r: Option<Hit>)
    requires nodes == Flat(t)
    ensures r == TreeHit(t, ray, hitOf)
  {
    r := IntersectFrom(nodes, 0, ray, hitOf, t);
  }
}
