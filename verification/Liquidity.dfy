/** Resting liquidity (src/xauusd/core/liquidity.py): equal highs and lows found by greedy
    clustering, and the suppression of pools at effectively the same price. */
module Liquidity {
  import opened Domain
  import opened Sequences

  datatype Settings = Settings(toleranceAtr: real, minEqualTouches: nat, lookbackBars: nat)

  datatype Pool = Pool(buySide: bool, price: real, formedTs: int, upper: real, lower: real, touches: nat,
      strength: real)

  // At least as extreme: as high for highs, as low for lows.
  predicate Beyond(a: real, b: real, isHigh: bool) {
    if isHigh then a >= b else a <= b
  }

  // ---------------------------------------------------------------- greedy clustering of one side

  // `level` is the value of the bar that started the cluster, `price` the extreme of its members.
  datatype Cluster = Cluster(level: real, price: real, members: seq<nat>)

  datatype State = State(used: seq<bool>, clusters: seq<Cluster>)

  // The unused positions below n within the tolerance of a level, in order.
  function Near(vals: seq<real>, used: seq<bool>, level: real, tol: real, n: nat): (r: seq<nat>)
    requires n <= |vals| == |used|
    ensures forall i: nat :: i in r <==> i < n && Abs(vals[i] - level) <= tol && !used[i]
    ensures forall k :: 0 <= k < |r| ==> r[k] < n
    ensures forall k, l :: 0 <= k < l < |r| ==> r[k] < r[l]
  {
    if n == 0 then []
    else
      var r := Near(vals, used, level, tol, n - 1);
      r + if Abs(vals[n - 1] - level) <= tol && !used[n - 1] then [n - 1] else []
  }

  // The most extreme value among the members.
  function Extreme(vals: seq<real>, members: seq<nat>, isHigh: bool): (r: real)
    requires members != [] && forall k :: 0 <= k < |members| ==> members[k] < |vals|
    ensures exists i :: i in members && vals[i] == r
    ensures forall i :: i in members ==> Beyond(r, vals[i], isHigh)
  {
    var last := vals[members[|members| - 1]];
    if |members| == 1 then last
    else
      var rest := Extreme(vals, members[..|members| - 1], isHigh);
      assert members == members[..|members| - 1] + [members[|members| - 1]];
      if Beyond(rest, last, isHigh) then rest else last
  }

  function Mark(used: seq<bool>, members: seq<nat>): (r: seq<bool>)
    ensures |r| == |used|
  {
    seq(|used|, i requires 0 <= i < |used| => used[i] || i in members)
  }

  // Visiting one position: skip it, drop it alone, or start a cluster there.
  function Visit(vals: seq<real>, isHigh: bool, tol: real, minTouches: nat, s: State, at: nat): (r: State)
    requires at < |vals| == |s.used| && tol >= 0.0
    ensures |r.used| == |s.used|
  {
    if s.used[at] then s
    else
      var members := Near(vals, s.used, vals[at], tol, |vals|);
      assert at in members;
      if |members| < minTouches then State(s.used[at := true], s.clusters)
      else State(Mark(s.used, members), s.clusters + [Cluster(vals[at], Extreme(vals, members, isHigh), members)])
  }

  function Greedy(vals: seq<real>, isHigh: bool, tol: real, minTouches: nat, order: seq<nat>): (r: State)
    requires tol >= 0.0 && forall p :: 0 <= p < |order| ==> order[p] < |vals|
    ensures |r.used| == |vals|
  {
    if order == [] then State(seq(|vals|, _ => false), [])
    else
      Visit(vals, isHigh, tol, minTouches,
            Greedy(vals, isHigh, tol, minTouches, order[..|order| - 1]), order[|order| - 1])
  }

  // Every position once, most extreme first; equal values in any order, as the sort is not stable.
  ghost predicate Sorts(vals: seq<real>, isHigh: bool, order: seq<nat>) {
    && (forall p :: 0 <= p < |order| ==> order[p] < |vals|)
    && (forall i :: 0 <= i < |vals| ==> i in order)
    && (forall p, q :: 0 <= p < q < |order| ==> Beyond(vals[order[p]], vals[order[q]], isHigh))
  }

  /** The loop itself, with the mask updated in place. */
  method ClusterSide(vals: seq<real>, isHigh: bool, tol: real, minTouches: nat, order: seq<nat>)
    returns (clusters: seq<Cluster>)
    requires tol >= 0.0 && forall p :: 0 <= p < |order| ==> order[p] < |vals|
    ensures clusters == Greedy(vals, isHigh, tol, minTouches, order).clusters
  {
    hide Near, Extreme, Visit;
    var used := new bool[|vals|](_ => false);
    clusters := [];
    assert used[..] == Greedy(vals, isHigh, tol, minTouches, []).used;
    for p := 0 to |order|
      invariant State(used[..], clusters) == Greedy(vals, isHigh, tol, minTouches, order[..p])
    {
      assert order[..p + 1][..p] == order[..p];
      clusters := VisitInPlace(vals, isHigh, tol, minTouches, used, clusters, order[p]);
    }
    assert order[..|order|] == order;
  }

  method VisitInPlace(vals: seq<real>, isHigh: bool, tol: real, minTouches: nat, used: array<bool>,
                      clusters: seq<Cluster>, at: nat)
    returns (r: seq<Cluster>)
    requires at < |vals| == used.Length && tol >= 0.0
    modifies used
    ensures State(used[..], r) == Visit(vals, isHigh, tol, minTouches, State(old(used[..]), clusters), at)
  {
    r := clusters;
    if used[at] {
      return;
    }
    var level := vals[at];
    var members := Near(vals, used[..], level, tol, |vals|);
    if |members| < minTouches {
      used[at] := true;
      return;
    }
    MarkInPlace(used, members);
    assert at in members;
    r := clusters + [Cluster(level, Extreme(vals, members, isHigh), members)];
  }

  method MarkInPlace(used: array<bool>, members: seq<nat>)
    requires forall k :: 0 <= k < |members| ==> members[k] < used.Length
    modifies used
    ensures used[..] == Mark(old(used[..]), members)
  {
    for k := 0 to |members|
      invariant forall i: nat :: i < used.Length ==> used[i] == (old(used[..])[i] || i in members[..k])
    {
      assert members[..k + 1] == members[..k] + [members[k]];
      used[members[k]] := true;
    }
    assert members[..|members|] == members;
  }

  // ---------------------------------------------------------------- the clusters are sound

  /** A cluster: enough members, all within the tolerance of the level, which is their extreme and
      the price; and everything within the tolerance is used up. */
  ghost predicate IsCluster(vals: seq<real>, isHigh: bool, tol: real, minTouches: nat, used: seq<bool>, c: Cluster)
    requires |used| == |vals|
  {
    && |c.members| >= minTouches
    && (forall k, l :: 0 <= k < l < |c.members| ==> c.members[k] < c.members[l])
    && (forall i: nat :: i in c.members ==> i < |vals| && used[i] && Abs(vals[i] - c.level) <= tol)
    && c.price == c.level && (exists i: nat :: i in c.members && vals[i] == c.level)
    && (forall i: nat :: i in c.members ==> Beyond(c.price, vals[i], isHigh))
    && (forall i :: 0 <= i < |vals| && Abs(vals[i] - c.level) <= tol ==> used[i])
    && (forall i :: 0 <= i < |vals| && !used[i] ==> Beyond(c.level, vals[i], isHigh))
  }

  // More extreme by more than the tolerance, and no member in common.
  ghost predicate Apart(isHigh: bool, tol: real, c: Cluster, d: Cluster) {
    && Beyond(c.price, d.price, isHigh) && Abs(c.price - d.price) > tol
    && forall i :: i in c.members ==> i !in d.members
  }

  ghost predicate Sound(vals: seq<real>, isHigh: bool, tol: real, minTouches: nat, s: State) {
    && |s.used| == |vals|
    && (forall k :: 0 <= k < |s.clusters| ==> IsCluster(vals, isHigh, tol, minTouches, s.used, s.clusters[k]))
    && (forall k, l :: 0 <= k < l < |s.clusters| ==> Apart(isHigh, tol, s.clusters[k], s.clusters[l]))
  }

  lemma ClusterStays(vals: seq<real>, isHigh: bool, tol: real, minTouches: nat, used: seq<bool>, more: seq<bool>,
      c: Cluster)
    requires |used| == |more| == |vals| && IsCluster(vals, isHigh, tol, minTouches, used, c)
    requires forall i :: 0 <= i < |used| ==> used[i] ==> more[i]
    ensures IsCluster(vals, isHigh, tol, minTouches, more, c)
  {
  }

  lemma StartsCluster(vals: seq<real>, isHigh: bool, tol: real, minTouches: nat, used: seq<bool>, at: nat)
    requires at < |vals| == |used| && !used[at] && tol >= 0.0
    requires forall i :: 0 <= i < |vals| && !used[i] ==> Beyond(vals[at], vals[i], isHigh)
    requires |Near(vals, used, vals[at], tol, |vals|)| >= minTouches
    ensures var members := Near(vals, used, vals[at], tol, |vals|);
            && at in members
            && IsCluster(vals, isHigh, tol, minTouches, Mark(used, members),
                Cluster(vals[at], Extreme(vals, members, isHigh), members))
  {
    hide Near, Extreme;
    var members := Near(vals, used, vals[at], tol, |vals|);
    assert at in members;
    var extreme := Extreme(vals, members, isHigh);
    var i :| i in members && vals[i] == extreme;
    assert Beyond(extreme, vals[at], isHigh) && Beyond(vals[at], vals[i], isHigh);
  }

  lemma NewIsApart(vals: seq<real>, isHigh: bool, tol: real, minTouches: nat, used: seq<bool>, c: Cluster, d: Cluster,
      at: nat)
    requires at < |vals| == |used| && !used[at] && IsCluster(vals, isHigh, tol, minTouches, used, c)
    requires d.price == vals[at] && forall i :: i in d.members ==> i < |vals| && !used[i]
    ensures Apart(isHigh, tol, c, d)
  {
  }

  lemma VisitKeepsSound(vals: seq<real>, isHigh: bool, tol: real, minTouches: nat, s: State, at: nat)
    requires Sound(vals, isHigh, tol, minTouches, s) && at < |vals| && tol >= 0.0
    requires forall i :: 0 <= i < |vals| && !s.used[i] ==> Beyond(vals[at], vals[i], isHigh)
    ensures Sound(vals, isHigh, tol, minTouches, Visit(vals, isHigh, tol, minTouches, s, at))
  {
    hide Near, Extreme, IsCluster, Apart, Beyond;
    var now := Visit(vals, isHigh, tol, minTouches, s, at);
    forall k | 0 <= k < |s.clusters|
      ensures IsCluster(vals, isHigh, tol, minTouches, now.used, s.clusters[k])
    {
      ClusterStays(vals, isHigh, tol, minTouches, s.used, now.used, s.clusters[k]);
    }
    var members := Near(vals, s.used, vals[at], tol, |vals|);
    if !s.used[at] && |members| >= minTouches {
      StartsCluster(vals, isHigh, tol, minTouches, s.used, at);
      var c := now.clusters[|s.clusters|];
      NewPrice(vals, isHigh, tol, minTouches, now.used, c);
      forall k | 0 <= k < |s.clusters|
        ensures Apart(isHigh, tol, s.clusters[k], c)
      {
        NewIsApart(vals, isHigh, tol, minTouches, s.used, s.clusters[k], c, at);
      }
    }
  }

  lemma NewPrice(vals: seq<real>, isHigh: bool, tol: real, minTouches: nat, used: seq<bool>, c: Cluster)
    requires |used| == |vals| && IsCluster(vals, isHigh, tol, minTouches, used, c)
    ensures c.price == c.level
  {
  }

  /** Every run of the clustering, over any values and any sorting order: the clusters are sound,
      and at the end every bar is in a cluster or was dropped. */
  lemma {:induction false} ClusteringIsSound(vals: seq<real>, isHigh: bool, tol: real, minTouches: nat,
      order: seq<nat>, n: nat)
    requires Sorts(vals, isHigh, order) && n <= |order| && tol >= 0.0
    ensures Sound(vals, isHigh, tol, minTouches, Greedy(vals, isHigh, tol, minTouches, order[..n]))
    ensures forall p :: 0 <= p < n ==> Greedy(vals, isHigh, tol, minTouches, order[..n]).used[order[p]]
  {
    hide Near, Extreme, Sound, Sorts;
    SortedInRange(vals, isHigh, order);
    if n == 0 {
      EmptyIsSound(vals, isHigh, tol, minTouches);
      assert order[..0] == [];
    } else {
      assert order[..n][..n - 1] == order[..n - 1];
      ClusteringIsSound(vals, isHigh, tol, minTouches, order, n - 1);
      var s := Greedy(vals, isHigh, tol, minTouches, order[..n - 1]);
      UnusedComeLater(vals, isHigh, order, s.used, n - 1);
      VisitKeepsSound(vals, isHigh, tol, minTouches, s, order[n - 1]);
    }
  }

  /** A position is used up once it was visited, or taken into a cluster. */
  lemma {:induction false} UsedMeans(vals: seq<real>, isHigh: bool, tol: real, minTouches: nat, order: seq<nat>,
      i: nat)
    requires tol >= 0.0 && (forall p :: 0 <= p < |order| ==> order[p] < |vals|) && i < |vals|
    ensures var s := Greedy(vals, isHigh, tol, minTouches, order);
            s.used[i] <==> i in order || exists k :: 0 <= k < |s.clusters| && i in s.clusters[k].members
  {
    hide Near, Extreme;
    if order != [] {
      var front, at := order[..|order| - 1], order[|order| - 1];
      UsedMeans(vals, isHigh, tol, minTouches, front, i);
      assert order == front + [at];
      var before, after := Greedy(vals, isHigh, tol, minTouches, front), Greedy(vals, isHigh, tol, minTouches, order);
      assert forall k :: 0 <= k < |before.clusters| ==> after.clusters[k] == before.clusters[k];
      if |after.clusters| > |before.clusters| {
        assert after.used[i] <==> before.used[i] || i in after.clusters[|before.clusters|].members;
      }
    }
  }

  /** When a visited position starts a cluster: exactly if it was not used up and enough positions
      not used up lie within the tolerance of its value; the cluster takes all of those. */
  lemma StartsExactlyWhen(vals: seq<real>, isHigh: bool, tol: real, minTouches: nat, order: seq<nat>, at: nat)
    requires tol >= 0.0 && (forall p :: 0 <= p < |order| ==> order[p] < |vals|) && at < |vals|
    ensures var before, after := Greedy(vals, isHigh, tol, minTouches, order),
                                 Greedy(vals, isHigh, tol, minTouches, order + [at]);
            var near := Near(vals, before.used, vals[at], tol, |vals|);
            && before.clusters <= after.clusters
            && (|after.clusters| == |before.clusters| + 1 <==> !before.used[at] && |near| >= minTouches)
            && (after.clusters != before.clusters ==>
                  var c := after.clusters[|before.clusters|]; c.members == near && c.level == vals[at])
  {
    hide Near, Extreme;
    assert (order + [at])[..|order|] == order;
  }

  lemma SortedInRange(vals: seq<real>, isHigh: bool, order: seq<nat>)
    requires Sorts(vals, isHigh, order)
    ensures forall p :: 0 <= p < |order| ==> order[p] < |vals|
  {
  }

  lemma EmptyIsSound(vals: seq<real>, isHigh: bool, tol: real, minTouches: nat)
    requires tol >= 0.0
    ensures Sound(vals, isHigh, tol, minTouches, Greedy(vals, isHigh, tol, minTouches, []))
  {
  }

  lemma UnusedComeLater(vals: seq<real>, isHigh: bool, order: seq<nat>, used: seq<bool>, n: nat)
    requires Sorts(vals, isHigh, order) && n < |order| && |used| == |vals|
    requires forall p :: 0 <= p < n ==> order[p] < |vals| && used[order[p]]
    ensures forall i :: 0 <= i < |vals| && !used[i] ==> Beyond(vals[order[n]], vals[i], isHigh)
  {
    forall i | 0 <= i < |vals| && !used[i]
      ensures Beyond(vals[order[n]], vals[i], isHigh)
    {
      assert i in order;
      var p :| 0 <= p < |order| && order[p] == i;
    }
  }

  // ---------------------------------------------------------------- equal highs and lows

  function Column(bars: seq<Bar>, isHigh: bool): (r: seq<real>)
    ensures |r| == |bars|
  {
    seq(|bars|, i requires 0 <= i < |bars| => if isHigh then bars[i].high else bars[i].low)
  }

  function PoolOf(window: seq<Bar>, isHigh: bool, tol: real, c: Cluster): Pool {
    var first := if c.members != [] && c.members[0] < |window| then window[c.members[0]].ts else 0;
    Pool(isHigh, c.price, first, c.price + tol / 2.0, c.price - tol / 2.0, |c.members|,
         Min(1.0, 0.35 + 0.15 * |c.members| as real))
  }

  function Pools(window: seq<Bar>, isHigh: bool, tol: real, clusters: seq<Cluster>): seq<Pool> {
    seq(|clusters|, k requires 0 <= k < |clusters| => PoolOf(window, isHigh, tol, clusters[k]))
  }

  // The positions most extreme first.
  method ArgSort(vals: seq<real>, isHigh: bool) returns (order: seq<nat>)
    ensures Sorts(vals, isHigh, order)
  {
    var leq := (i: nat, j: nat) => Beyond(At(vals, i), At(vals, j), isHigh);
    var positions: seq<nat> := seq(|vals|, i => i);
    order := Sort(positions, leq);
    SortSorted(positions, leq);
    forall p | 0 <= p < |order|
      ensures order[p] < |vals|
    {
      assert order[p] in order;
      InBoth(order, positions, order[p]);
    }
    forall i | 0 <= i < |vals|
      ensures i in order
    {
      assert positions[i] == i;
      InBoth(order, positions, i);
    }
  }

  function At(vals: seq<real>, i: nat): real {
    if i < |vals| then vals[i] else 0.0
  }

  /** Equal highs, then equal lows, of the last bars.  `lookback` 0 stands for the configured one. */
  method EqualLevels(cfg: Settings, bars: seq<Bar>, atr: real, lookback: nat)
    returns (pools: seq<Pool>, ghost highOrder: seq<nat>, ghost lowOrder: seq<nat>)
    requires cfg.toleranceAtr >= 0.0
    ensures |bars| < 10 || atr <= 0.0 ==> pools == []
    ensures |bars| >= 10 && atr > 0.0 ==>
              var wanted := if lookback == 0 then cfg.lookbackBars else lookback;
              var window := bars[|bars| - (if wanted < |bars| then wanted else |bars|)..];
              var tol := cfg.toleranceAtr * atr;
              && Sorts(Column(window, true), true, highOrder) && Sorts(Column(window, false), false, lowOrder)
              && var highs := Greedy(Column(window, true), true, tol, cfg.minEqualTouches, highOrder).clusters;
                 var lows := Greedy(Column(window, false), false, tol, cfg.minEqualTouches, lowOrder).clusters;
                 pools == Pools(window, true, tol, highs) + Pools(window, false, tol, lows)
  {
    hide Sorts, Greedy;
    pools, highOrder, lowOrder := [], [], [];
    if |bars| < 10 || atr <= 0.0 {
      return;
    }
    var wanted := if lookback == 0 then cfg.lookbackBars else lookback;
    var window := bars[|bars| - (if wanted < |bars| then wanted else |bars|)..];
    var tol := cfg.toleranceAtr * atr;
    assert tol >= 0.0;
    var highs, lows := Column(window, true), Column(window, false);
    var order := ArgSort(highs, true);
    SortedInRange(highs, true, order);
    var clusters := ClusterSide(highs, true, tol, cfg.minEqualTouches, order);
    pools, highOrder := Pools(window, true, tol, clusters), order;
    order := ArgSort(lows, false);
    SortedInRange(lows, false, order);
    clusters := ClusterSide(lows, false, tol, cfg.minEqualTouches, order);
    pools, lowOrder := pools + Pools(window, false, tol, clusters), order;
  }

  /** What equal levels mean for the pools of one side: every pool counts at least the required
      touches, opens at its first touch, is the stronger the more touches up to five, and any two
      prices lie more than the tolerance apart. */
  lemma EqualLevelsAreSeparate(window: seq<Bar>, isHigh: bool, tol: real, minTouches: nat, order: seq<nat>)
    requires tol >= 0.0 && Sorts(Column(window, isHigh), isHigh, order)
    ensures var clusters := Greedy(Column(window, isHigh), isHigh, tol, minTouches, order).clusters;
            var pools := Pools(window, isHigh, tol, clusters);
            && |pools| == |clusters|
            && (forall k :: 0 <= k < |pools| ==>
                  && pools[k].touches == |clusters[k].members| >= minTouches && pools[k].buySide == isHigh
                  && pools[k].upper - pools[k].price == pools[k].price - pools[k].lower == tol / 2.0
                  && (pools[k].strength == 1.0 <==> pools[k].touches >= 5)
                  && (pools[k].touches < 5 ==> pools[k].strength == 0.35 + 0.15 * pools[k].touches as real))
            && (forall k :: 0 <= k < |pools| ==>
                  && clusters[k].members != [] && clusters[k].members[0] < |window|
                  && pools[k].formedTs == window[clusters[k].members[0]].ts
                  && forall i: nat :: i in clusters[k].members ==> clusters[k].members[0] <= i)
            && (forall k, l :: 0 <= k < l < |pools| ==> Abs(pools[k].price - pools[l].price) > tol)
            && (forall k, i: nat :: 0 <= k < |clusters| && i in clusters[k].members ==>
                                      i < |window| && Abs(Column(window, isHigh)[i] - pools[k].price) <= tol
                                      && Beyond(pools[k].price, Column(window, isHigh)[i], isHigh))
  {
    hide Greedy, Sorts, IsCluster, Apart, Beyond;
    var vals := Column(window, isHigh);
    assert order[..|order|] == order;
    SortedInRange(vals, isHigh, order);
    ClusteringIsSound(vals, isHigh, tol, minTouches, order, |order|);
    var s := Greedy(vals, isHigh, tol, minTouches, order);
    forall k | 0 <= k < |s.clusters|
      ensures |s.clusters[k].members| >= minTouches
      ensures s.clusters[k].members != [] && s.clusters[k].members[0] < |vals|
      ensures forall i: nat :: i in s.clusters[k].members ==> s.clusters[k].members[0] <= i
      ensures forall i: nat :: i in s.clusters[k].members ==>
                                 i < |vals| && Abs(vals[i] - s.clusters[k].price) <= tol
                                     && Beyond(s.clusters[k].price, vals[i], isHigh)
    {
      ClusterMeaning(vals, isHigh, tol, minTouches, s.used, s.clusters[k]);
    }
    forall k, l | 0 <= k < l < |s.clusters|
      ensures Abs(s.clusters[k].price - s.clusters[l].price) > tol
    {
      ApartMeaning(isHigh, tol, s.clusters[k], s.clusters[l]);
    }
  }

  lemma ClusterMeaning(vals: seq<real>, isHigh: bool, tol: real, minTouches: nat, used: seq<bool>, c: Cluster)
    requires |used| == |vals| && IsCluster(vals, isHigh, tol, minTouches, used, c)
    ensures |c.members| >= minTouches
    ensures c.members != [] && c.members[0] < |vals|
    ensures forall i: nat :: i in c.members ==> c.members[0] <= i
    ensures forall i: nat :: i in c.members ==>
                               i < |vals| && Abs(vals[i] - c.price) <= tol && Beyond(c.price, vals[i], isHigh)
  {
    assert c.members[0] in c.members;
  }

  lemma ApartMeaning(isHigh: bool, tol: real, c: Cluster, d: Cluster)
    requires Apart(isHigh, tol, c, d)
    ensures Abs(c.price - d.price) > tol
  {
  }

  // ---------------------------------------------------------------- one pool per price

  predicate SamePlace(tol: real, a: Pool, b: Pool) {
    Abs(a.price - b.price) <= tol && a.buySide == b.buySide
  }

  predicate StrongerFirst(a: Pool, b: Pool) {
    a.strength > b.strength || (a.strength == b.strength && a.touches >= b.touches)
  }

  predicate CheaperFirst(a: Pool, b: Pool) {
    a.price <= b.price
  }

  predicate Suppressed(tol: real, kept: seq<Pool>, p: Pool) {
    exists k :: 0 <= k < |kept| && SamePlace(tol, kept[k], p)
  }

  function Keep(tol: real, pools: seq<Pool>): seq<Pool> {
    if pools == [] then []
    else
      var kept := Keep(tol, pools[..|pools| - 1]);
      var p := pools[|pools| - 1];
      if Suppressed(tol, kept, p) then kept else kept + [p]
  }

  /** Collapse pools at effectively the same price, keeping the strongest. */
  method Dedupe(tol: real, pools: seq<Pool>) returns (r: seq<Pool>)
    ensures r == Sort(Keep(tol, Sort(pools, StrongerFirst)), CheaperFirst)
  {
    var ranked := Sort(pools, StrongerFirst);
    var kept := [];
    for i := 0 to |ranked|
      invariant kept == Keep(tol, ranked[..i])
    {
      assert ranked[..i + 1][..i] == ranked[..i];
      if !Suppressed(tol, kept, ranked[i]) {
        kept := kept + [ranked[i]];
      }
    }
    assert ranked[..|ranked|] == ranked;
    r := Sort(kept, CheaperFirst);
  }

  ghost predicate Scattered(tol: real, pools: seq<Pool>) {
    forall i, j :: 0 <= i < j < |pools| ==> !SamePlace(tol, pools[i], pools[j])
  }

  // A kept pool of the side within the tolerance, stronger, or as strong with as many touches.
  predicate Dominates(tol: real, a: Pool, p: Pool) {
    && a.buySide == p.buySide && a.price - tol <= p.price <= a.price + tol
    && (a.strength > p.strength || (a.strength == p.strength && a.touches >= p.touches))
  }

  ghost predicate Dominated(tol: real, kept: seq<Pool>, p: Pool) {
    exists k :: 0 <= k < |kept| && (kept[k] == p || Dominates(tol, kept[k], p))
  }

  lemma {:induction false} KeepScatters(tol: real, pools: seq<Pool>)
    ensures Scattered(tol, Keep(tol, pools))
  {
    if pools != [] {
      KeepScatters(tol, pools[..|pools| - 1]);
    }
  }

  lemma {:induction false} KeepDominates(tol: real, pools: seq<Pool>)
    requires SortedBy(pools, StrongerFirst)
    ensures forall p :: p in Keep(tol, pools) ==> p in pools
    ensures forall i :: 0 <= i < |pools| ==> Dominated(tol, Keep(tol, pools), pools[i])
  {
    if pools != [] {
      var front, last := pools[..|pools| - 1], pools[|pools| - 1];
      KeepDominates(tol, front);
      var before, now := Keep(tol, front), Keep(tol, pools);
      if Suppressed(tol, before, last) {
        var k :| 0 <= k < |before| && SamePlace(tol, before[k], last);
        assert before[k] in front;
        assert Dominated(tol, now, last);
      } else {
        assert now[|before|] == last;
      }
      forall i | 0 <= i < |front|
        ensures Dominated(tol, now, pools[i])
      {
        StillDominated(tol, before, now, front[i]);
      }
    }
  }

  lemma StillDominated(tol: real, kept: seq<Pool>, more: seq<Pool>, p: Pool)
    requires kept <= more && Dominated(tol, kept, p)
    ensures Dominated(tol, more, p)
  {
    var k :| 0 <= k < |kept| && (kept[k] == p || Dominates(tol, kept[k], p));
    assert more[k] == kept[k];
  }

  lemma {:induction false} InsertScatters(tol: real, s: seq<Pool>, x: Pool)
    requires Scattered(tol, s) && forall i :: 0 <= i < |s| ==> !SamePlace(tol, s[i], x)
    ensures Scattered(tol, Insert(s, x, CheaperFirst))
  {
    if s != [] && !CheaperFirst(s[|s| - 1], x) {
      var front, last := s[..|s| - 1], s[|s| - 1];
      InsertScatters(tol, front, x);
      var r := Insert(front, x, CheaperFirst);
      forall i | 0 <= i < |r|
        ensures !SamePlace(tol, r[i], last)
      {
        assert r[i] in multiset(r);
        assert r[i] in front || r[i] == x;
      }
    }
  }

  lemma {:induction false} SortScatters(tol: real, s: seq<Pool>)
    requires Scattered(tol, s)
    ensures Scattered(tol, Sort(s, CheaperFirst))
  {
    if s != [] {
      var front := s[..|s| - 1];
      SortScatters(tol, front);
      var r := Sort(front, CheaperFirst);
      forall i | 0 <= i < |r|
        ensures !SamePlace(tol, r[i], s[|s| - 1])
      {
        assert r[i] in r;
        InBoth(r, front, r[i]);
        var j :| 0 <= j < |front| && front[j] == r[i];
        assert !SamePlace(tol, s[j], s[|s| - 1]);
      }
      InsertScatters(tol, r, s[|s| - 1]);
    }
  }

  lemma {:induction false} KeepFixesScattered(tol: real, pools: seq<Pool>)
    requires Scattered(tol, pools)
    ensures Keep(tol, pools) == pools
  {
    if pools != [] {
      KeepFixesScattered(tol, pools[..|pools| - 1]);
      assert forall i :: 0 <= i < |pools| - 1 ==> !SamePlace(tol, pools[i], pools[|pools| - 1]);
    }
  }

  /** What is left after the suppression, whatever pools came in: some of them, in price order, no
      two of a side within the tolerance, and every pool dropped has a kept one of its side within
      the tolerance that is at least as strong. */
  lemma DedupeIsDominance(tol: real, pools: seq<Pool>)
    ensures var r := Sort(Keep(tol, Sort(pools, StrongerFirst)), CheaperFirst);
            && (forall i, j :: 0 <= i < j < |r| ==> r[i].price <= r[j].price)
            && (forall p :: p in r ==> p in pools)
            && (forall i, j :: 0 <= i < j < |r| && r[i].buySide == r[j].buySide ==> r[j].price - r[i].price > tol)
            && (forall i :: 0 <= i < |pools| ==> Dominated(tol, r, pools[i]))
  {
    hide Keep, Sort, Scattered;
    var ranked := Sort(pools, StrongerFirst);
    var kept := Keep(tol, ranked);
    var r := Sort(kept, CheaperFirst);
    SortSorted(pools, StrongerFirst);
    SortSorted(kept, CheaperFirst);
    KeepScatters(tol, ranked);
    SortScatters(tol, kept);
    KeepDominates(tol, ranked);
    forall p | p in r
      ensures p in pools
    {
      InBoth(r, kept, p);
      InBoth(ranked, pools, p);
    }
    forall i | 0 <= i < |pools|
      ensures Dominated(tol, r, pools[i])
    {
      InBoth(ranked, pools, pools[i]);
      var j :| 0 <= j < |ranked| && ranked[j] == pools[i];
      assert Dominated(tol, kept, ranked[j]);
      DominatedInBoth(tol, kept, r, pools[i]);
    }
    SpreadOut(tol, r);
  }

  lemma SpreadOut(tol: real, r: seq<Pool>)
    requires Scattered(tol, r) && SortedBy(r, CheaperFirst)
    ensures forall i, j :: 0 <= i < j < |r| ==> r[i].price <= r[j].price
    ensures forall i, j :: 0 <= i < j < |r| && r[i].buySide == r[j].buySide ==> r[j].price - r[i].price > tol
  {
    forall i, j | 0 <= i < j < |r|
      ensures r[i].price <= r[j].price && (r[i].buySide == r[j].buySide ==> r[j].price - r[i].price > tol)
    {
      assert CheaperFirst(r[i], r[j]) && !SamePlace(tol, r[i], r[j]);
    }
  }

  lemma DominatedInBoth(tol: real, a: seq<Pool>, b: seq<Pool>, p: Pool)
    requires multiset(a) == multiset(b) && Dominated(tol, a, p)
    ensures Dominated(tol, b, p)
  {
    var k :| 0 <= k < |a| && (a[k] == p || Dominates(tol, a[k], p));
    InBoth(a, b, a[k]);
    var l :| 0 <= l < |b| && b[l] == a[k];
  }

  // Pools already scattered are all kept.
  lemma DedupeKeepsScattered(tol: real, pools: seq<Pool>)
    requires Scattered(tol, Sort(pools, StrongerFirst))
    ensures multiset(Sort(Keep(tol, Sort(pools, StrongerFirst)), CheaperFirst)) == multiset(pools)
  {
    KeepFixesScattered(tol, Sort(pools, StrongerFirst));
  }
}
