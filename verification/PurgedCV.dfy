/** Purged, embargoed cross-validation (src/xauusd/ml/purged_cv.py).  Sample i is a trade outcome
    over the closed interval from t0[i] to t1[i]; a training outcome that overlaps a test outcome
    would leak, and so would one right after the test block. */
module PurgedCV {
  import opened Domain
  import opened Sequences

  // The folds, or one of the two complaints about the input.
  datatype Result<T> = Ok(value: T) | TooFew | Unsorted

  datatype Fold = Fold(train: seq<nat>, start: nat, end: nat)

  datatype Samples = Samples(t0: seq<int>, t1: seq<int>, splits: nat, embargo: nat) {
    ghost predicate Valid() { |t0| == |t1| }
    function Count(): nat { |t0| }
  }

  function Identity(n: nat): (r: seq<nat>)
    ensures |r| == n
  {
    seq(n, i => i)
  }

  // An order that sorts; equal times may come in any order, as the sort is not stable.
  ghost predicate IsArgsort(t: seq<int>, order: seq<nat>) {
    && multiset(order) == multiset(Identity(|t|))
    && (forall p :: 0 <= p < |order| ==> order[p] < |t|)
    && (forall p, q :: 0 <= p < q < |order| ==> t[order[p]] <= t[order[q]])
  }

  // ---------------------------------------------------------------- the blocks

  // Where test block k starts, of n samples in the given number of blocks.
  function Bound(n: nat, splits: nat, k: nat): nat
    requires splits > 0
  {
    k * n / splits
  }

  lemma BoundStep(n: nat, splits: nat, k: nat)
    requires splits > 0 && n >= 2 * splits
    ensures Bound(n, splits, k) + 2 <= Bound(n, splits, k + 1)
  {
    assert (k + 1) * n == k * n + n;
    DivisionStep(k * n, n, splits);
  }

  lemma DivisionStep(a: nat, n: nat, d: nat)
    requires d > 0 && n >= 2 * d
    ensures a / d + 2 <= (a + n) / d
  {
    var q := a / d;
    assert (q + 2) * d == q * d + 2 * d;
    DivisionAtLeast(a + n, d, q + 2);
  }

  lemma DivisionAtLeast(x: nat, d: nat, m: nat)
    requires d > 0 && m * d <= x
    ensures m <= x / d
  {
    var q := x / d;
    assert x < (q + 1) * d;
    assert q + 1 <= m ==> (q + 1) * d <= m * d;
  }

  lemma BoundEnds(n: nat, splits: nat)
    requires splits > 0
    ensures Bound(n, splits, 0) == 0 && Bound(n, splits, splits) == n
  {
    var x := splits * n;
    assert n * splits == x;
    DivisionAtLeast(x, splits, n);
    var q := x / splits;
    assert q * splits <= x;
    assert q >= n + 1 ==> q * splits >= (n + 1) * splits;
  }

  lemma {:induction false} BoundsGrow(n: nat, splits: nat, j: nat, k: nat)
    requires splits > 0 && n >= 2 * splits && j <= k
    ensures Bound(n, splits, j) + 2 * (k - j) <= Bound(n, splits, k)
    decreases k - j
  {
    hide Bound;
    if j < k {
      BoundStep(n, splits, k - 1);
      BoundsGrow(n, splits, j, k - 1);
    }
  }

  predicate InBlock(n: nat, splits: nat, k: nat, i: nat)
    requires splits > 0
  {
    Bound(n, splits, k) <= i < Bound(n, splits, k + 1)
  }

  lemma {:induction false} BlockBefore(n: nat, splits: nat, i: nat, m: nat) returns (k: nat)
    requires splits > 0 && n >= 2 * splits && i < Bound(n, splits, m)
    ensures k < m && InBlock(n, splits, k, i)
  {
    BoundEnds(n, splits);
    if i >= Bound(n, splits, m - 1) {
      k := m - 1;
    } else {
      k := BlockBefore(n, splits, i, m - 1);
    }
  }

  predicate BigEnough(n: nat, splits: nat, k: nat)
    requires splits > 0
  {
    Bound(n, splits, k) + 2 <= Bound(n, splits, k + 1) <= n
  }

  lemma OneBlock(n: nat, splits: nat, i: nat, j: nat, k: nat)
    requires splits > 0 && n >= 2 * splits && InBlock(n, splits, j, i) && InBlock(n, splits, k, i)
    ensures j == k
  {
    hide Bound;
    if j < k {
      BoundsGrow(n, splits, j + 1, k);
    } else if k < j {
      BoundsGrow(n, splits, k + 1, j);
    }
  }

  /** The blocks partition the samples: each sample lies in exactly one, and none has fewer than two. */
  lemma BlocksPartition(n: nat, splits: nat, i: nat)
    requires splits > 0 && n >= 2 * splits && i < n
    ensures exists k :: 0 <= k < splits && InBlock(n, splits, k, i)
    ensures forall j, k ::
              0 <= j < splits && 0 <= k < splits && InBlock(n, splits, j, i) && InBlock(n, splits, k, i) ==> j == k
    ensures forall k :: 0 <= k < splits ==> BigEnough(n, splits, k)
  {
    hide Bound, InBlock;
    BoundEnds(n, splits);
    var block := BlockBefore(n, splits, i, splits);
    forall j, k | 0 <= j < splits && 0 <= k < splits && InBlock(n, splits, j, i) && InBlock(n, splits, k, i)
      ensures j == k
    {
      OneBlock(n, splits, i, j, k);
    }
    forall k | 0 <= k < splits
      ensures BigEnough(n, splits, k)
    {
      BoundStep(n, splits, k);
      BoundsGrow(n, splits, k + 1, splits);
    }
  }

  // ---------------------------------------------------------------- one fold

  // The latest end of the outcomes in a block.
  function LatestEnd(t1: seq<int>, start: nat, end: nat): (r: int)
    requires start < end <= |t1|
    ensures forall j :: start <= j < end ==> t1[j] <= r
    ensures exists j :: start <= j < end && t1[j] == r
  {
    if end == start + 1 then t1[start]
    else
      var rest := LatestEnd(t1, start, end - 1);
      if t1[end - 1] >= rest then t1[end - 1] else rest
  }

  predicate Purged(s: Samples, start: nat, end: nat, i: nat)
    requires s.Valid() && start < end <= s.Count() && i < s.Count()
  {
    s.t1[i] >= s.t0[start] && s.t0[i] <= LatestEnd(s.t1, start, end)
  }

  predicate Trains(s: Samples, start: nat, end: nat, i: nat)
    requires s.Valid() && start < end <= s.Count() && i < s.Count()
  {
    !(start <= i < end) && !Purged(s, start, end, i) && !(end <= i < end + s.embargo)
  }

  // The training positions below n, in order.
  function TrainBelow(s: Samples, start: nat, end: nat, n: nat): (r: seq<nat>)
    requires s.Valid() && start < end <= s.Count() && n <= s.Count()
    ensures forall i: nat :: i in r <==> i < n && Trains(s, start, end, i)
    ensures |r| <= n - (if n <= start then 0 else if n <= end then n - start else end - start)
  {
    if n == 0 then [] else TrainBelow(s, start, end, n - 1) + if Trains(s, start, end, n - 1) then [n - 1] else []
  }

  ghost predicate Ascending(s: seq<nat>) {
    forall a, b :: 0 <= a < b < |s| ==> s[a] < s[b]
  }

  lemma {:induction false} TrainAscends(s: Samples, start: nat, end: nat, n: nat)
    requires s.Valid() && start < end <= s.Count() && n <= s.Count()
    ensures Ascending(TrainBelow(s, start, end, n))
  {
    if n > 0 {
      TrainAscends(s, start, end, n - 1);
      var below := TrainBelow(s, start, end, n - 1);
      assert forall a :: 0 <= a < |below| ==> below[a] in below;
    }
  }

  // The folds of the first m blocks; a block with nothing to train on yields none.
  function FoldsOf(s: Samples, m: nat): seq<Fold>
    requires s.Valid() && s.splits > 0 && s.Count() >= 2 * s.splits && m <= s.splits
  {
    if m == 0 then []
    else
      BlockInRange(s, m - 1);
      var start, end := Bound(s.Count(), s.splits, m - 1), Bound(s.Count(), s.splits, m);
      var train := TrainBelow(s, start, end, s.Count());
      FoldsOf(s, m - 1) + if train != [] then [Fold(train, start, end)] else []
  }

  lemma BlockInRange(s: Samples, k: nat)
    requires s.splits > 0 && s.Count() >= 2 * s.splits && k < s.splits
    ensures Bound(s.Count(), s.splits, k) + 2 <= Bound(s.Count(), s.splits, k + 1) <= s.Count()
  {
    BoundStep(s.Count(), s.splits, k);
    BoundsGrow(s.Count(), s.splits, k + 1, s.splits);
    BoundEnds(s.Count(), s.splits);
  }

  lemma NoFolds(s: Samples)
    requires s.Valid() && s.Count() >= 2 * s.splits
    ensures s.splits > 0 ==> FoldsOf(s, 0) == []
  {
  }

  lemma NextFold(s: Samples, k: nat)
    requires s.Valid() && s.splits > 0 && s.Count() >= 2 * s.splits && k < s.splits
    ensures Bound(s.Count(), s.splits, k) + 2 <= Bound(s.Count(), s.splits, k + 1) <= s.Count()
    ensures var start, end := Bound(s.Count(), s.splits, k), Bound(s.Count(), s.splits, k + 1);
            var train := TrainBelow(s, start, end, s.Count());
            FoldsOf(s, k + 1) == FoldsOf(s, k) + if train != [] then [Fold(train, start, end)] else []
  {
    hide Bound, TrainBelow;
    BlockInRange(s, k);
  }

  /** The split, with the training mask cleared in place for each fold.  `order` is what sorting
      the start times returned. */
  method Split(s: Samples, order: seq<nat>) returns (folds: Result<seq<Fold>>)
    requires s.Valid() && IsArgsort(s.t0, order)
    ensures folds == if s.Count() < 2 * s.splits then TooFew
                     else if order != Identity(s.Count()) then Unsorted
                     else Ok(if s.splits == 0 then [] else FoldsOf(s, s.splits))
  {
    hide Bound, TrainBelow, IsArgsort, Trains, FoldsOf;
    var n := s.Count();
    if n < 2 * s.splits {
      return TooFew;
    }
    if order != Identity(n) {
      return Unsorted;
    }
    var out: seq<Fold> := [];
    NoFolds(s);
    for k := 0 to s.splits
      invariant out == if s.splits == 0 then [] else FoldsOf(s, k)
    {
      BlockInRange(s, k);
      NextFold(s, k);
      var start, end := Bound(n, s.splits, k), Bound(n, s.splits, k + 1);
      var mask := TrainMask(s, start, end);
      var train := FlatNonzero(s, start, end, mask);
      if train != [] {
        out := out + [Fold(train, start, end)];
      }
    }
    folds := Ok(out);
  }

  method TrainMask(s: Samples, start: nat, end: nat) returns (mask: array<bool>)
    requires s.Valid() && start < end <= s.Count()
    ensures fresh(mask) && mask.Length == s.Count()
    ensures forall i :: 0 <= i < mask.Length ==> mask[i] == Trains(s, start, end, i)
  {
    var n := s.Count();
    mask := new bool[n](_ => true);
    for i := start to end
      invariant forall j :: 0 <= j < n ==> mask[j] == !(start <= j < i)
    {
      mask[i] := false;
    }
    var testStart, testEnd := s.t0[start], LatestEnd(s.t1, start, end);
    for i := 0 to n
      invariant forall j :: 0 <= j < n ==> mask[j] == (!(start <= j < end) && (j < i ==> !Purged(s, start, end, j)))
    {
      mask[i] := mask[i] && !(s.t1[i] >= testStart && s.t0[i] <= testEnd);
    }
    if s.embargo > 0 {
      var last := if n < end + s.embargo then n else end + s.embargo;
      for i := end to last
        invariant forall j :: 0 <= j < n ==>
                    mask[j] == (!(start <= j < end) && !Purged(s, start, end, j) && !(end <= j < i))
      {
        mask[i] := false;
      }
    }
  }

  method FlatNonzero(s: Samples, start: nat, end: nat, mask: array<bool>) returns (train: seq<nat>)
    requires s.Valid() && start < end <= s.Count() && mask.Length == s.Count()
    requires forall i :: 0 <= i < mask.Length ==> mask[i] == Trains(s, start, end, i)
    ensures train == TrainBelow(s, start, end, s.Count())
  {
    train := [];
    for i := 0 to mask.Length
      invariant train == TrainBelow(s, start, end, i)
    {
      if mask[i] {
        train := train + [i];
      }
    }
  }

  // ---------------------------------------------------------------- no leak

  predicate Overlap(s: Samples, i: nat, j: nat)
    requires s.Valid() && i < s.Count() && j < s.Count()
  {
    s.t1[i] >= s.t0[j] && s.t0[i] <= s.t1[j]
  }

  // The outcome ends no earlier than the block starts, and starts no later than one of its outcomes ends.
  ghost predicate ReachesInto(s: Samples, start: nat, end: nat, i: nat)
    requires s.Valid() && start < end <= s.Count() && i < s.Count()
  {
    s.t1[i] >= s.t0[start] && exists j: nat :: start <= j < end && s.t0[i] <= s.t1[j]
  }

  ghost predicate Sorted(t: seq<int>) {
    forall i, j :: 0 <= i <= j < |t| ==> t[i] <= t[j]
  }

  /** A fold without leaks: something to train on, in order; no training outcome overlaps a test outcome; no
      training sample is a test sample or follows the block within the embargo; and nothing else
      was dropped but outcomes that reach into the span of the test block. */
  ghost predicate Leakless(s: Samples, f: Fold)
    requires s.Valid()
  {
    && f.train != [] && Ascending(f.train) && f.start + 2 <= f.end <= s.Count()
    && (forall i, j: nat :: i in f.train && f.start <= j < f.end ==> i < s.Count() && !Overlap(s, i, j))
    && (forall i: nat :: i in f.train ==> !(f.start <= i < f.end + s.embargo))
    && (forall i: nat :: i < s.Count() && i !in f.train && !(f.start <= i < f.end + s.embargo) ==>
            ReachesInto(s, f.start, f.end, i))
  }

  lemma FoldIsLeakless(s: Samples, start: nat, end: nat)
    requires s.Valid() && Sorted(s.t0) && start + 2 <= end <= s.Count()
    requires TrainBelow(s, start, end, s.Count()) != []
    ensures Leakless(s, Fold(TrainBelow(s, start, end, s.Count()), start, end))
  {
    hide TrainBelow;
    TrainAscends(s, start, end, s.Count());
    var f := Fold(TrainBelow(s, start, end, s.Count()), start, end);
    forall i, j: nat | i in f.train && start <= j < end
      ensures i < s.Count() && !Overlap(s, i, j)
    {
      assert Trains(s, start, end, i);
      assert s.t0[start] <= s.t0[j] && s.t1[j] <= LatestEnd(s.t1, start, end);
    }
    var latest: nat :| start <= latest < end && s.t1[latest] == LatestEnd(s.t1, start, end);
    forall i: nat | i < s.Count() && i !in f.train && !(start <= i < end + s.embargo)
      ensures ReachesInto(s, start, end, i)
    {
      assert Purged(s, start, end, i) && s.t0[i] <= s.t1[latest];
    }
  }

  lemma {:induction false} FoldsAreLeakless(s: Samples, m: nat)
    requires s.Valid() && s.splits > 0 && s.Count() >= 2 * s.splits && m <= s.splits && Sorted(s.t0)
    ensures forall k :: 0 <= k < |FoldsOf(s, m)| ==> Leakless(s, FoldsOf(s, m)[k])
  {
    hide Leakless, TrainBelow, Bound, Sorted;
    if m > 0 {
      FoldsAreLeakless(s, m - 1);
      BlockInRange(s, m - 1);
      var start, end := Bound(s.Count(), s.splits, m - 1), Bound(s.Count(), s.splits, m);
      if TrainBelow(s, start, end, s.Count()) != [] {
        FoldIsLeakless(s, start, end);
      }
    }
  }

  lemma IdentitySorts(t: seq<int>)
    ensures IsArgsort(t, Identity(|t|)) <==> Sorted(t)
  {
    if IsArgsort(t, Identity(|t|)) {
      forall i, j | 0 <= i <= j < |t|
        ensures t[i] <= t[j]
      {
        assert Identity(|t|)[i] == i && Identity(|t|)[j] == j;
      }
    }
  }

  /** Purging leaves no overlap: whatever the outcomes and the embargo, every fold of a split that
      is not refused is free of leaks.  The outcomes need not end after they start. */
  lemma SplitIsLeakless(s: Samples, order: seq<nat>)
    requires s.Valid() && IsArgsort(s.t0, order) && order == Identity(s.Count())
    requires s.splits > 0 && s.Count() >= 2 * s.splits
    ensures forall k :: 0 <= k < |FoldsOf(s, s.splits)| ==> Leakless(s, FoldsOf(s, s.splits)[k])
  {
    IdentitySorts(s.t0);
    FoldsAreLeakless(s, s.splits);
  }

  // A fold whose test block is this one.
  ghost predicate Tests(folds: seq<Fold>, start: nat, end: nat) {
    exists k :: 0 <= k < |folds| && folds[k].start == start && folds[k].end == end
  }

  /** No block is left out but one with nothing to train on: every block some sample outside it
      neither follows within the embargo nor reaches into is the test block of a fold, and the
      folds come in the order of their blocks. */
  lemma {:induction false} EveryBlockIsTested(s: Samples, m: nat, k: nat, i: nat)
    requires s.Valid() && s.splits > 0 && s.Count() >= 2 * s.splits && k < m <= s.splits && i < s.Count()
    requires var start, end := k * s.Count() / s.splits, (k + 1) * s.Count() / s.splits;
             start < end <= s.Count() && !(start <= i < end + s.embargo) && !ReachesInto(s, start, end, i)
    ensures Tests(FoldsOf(s, m), k * s.Count() / s.splits, (k + 1) * s.Count() / s.splits)
    ensures forall a, b :: 0 <= a < b < |FoldsOf(s, m)| ==> FoldsOf(s, m)[a].end <= FoldsOf(s, m)[b].start
  {
    hide TrainBelow, ReachesInto;
    FoldsInOrder(s, m);
    TestedFrom(s, m, k, i);
  }

  lemma {:induction false} TestedFrom(s: Samples, m: nat, k: nat, i: nat)
    requires s.Valid() && s.splits > 0 && s.Count() >= 2 * s.splits && k < m <= s.splits && i < s.Count()
    requires var start, end := Bound(s.Count(), s.splits, k), Bound(s.Count(), s.splits, k + 1);
             start < end <= s.Count() && !(start <= i < end + s.embargo) && !ReachesInto(s, start, end, i)
    ensures Tests(FoldsOf(s, m), Bound(s.Count(), s.splits, k), Bound(s.Count(), s.splits, k + 1))
  {
    hide TrainBelow, ReachesInto, Bound, FoldsOf;
    NextFold(s, m - 1);
    var start, end := Bound(s.Count(), s.splits, k), Bound(s.Count(), s.splits, k + 1);
    var before, after := FoldsOf(s, m - 1), FoldsOf(s, m);
    if k == m - 1 {
      UntouchedTrains(s, start, end, i);
      assert i in TrainBelow(s, start, end, s.Count());
      assert after[|before|].start == start && after[|before|].end == end;
    } else {
      TestedFrom(s, m - 1, k, i);
      var j :| 0 <= j < |before| && before[j].start == start && before[j].end == end;
      assert after[j] == before[j];
    }
  }

  lemma UntouchedTrains(s: Samples, start: nat, end: nat, i: nat)
    requires s.Valid() && start < end <= s.Count() && i < s.Count()
    requires !(start <= i < end + s.embargo) && !ReachesInto(s, start, end, i)
    ensures Trains(s, start, end, i)
  {
    var latest: nat :| start <= latest < end && s.t1[latest] == LatestEnd(s.t1, start, end);
  }

  lemma {:induction false} FoldsInOrder(s: Samples, m: nat)
    requires s.Valid() && s.splits > 0 && s.Count() >= 2 * s.splits && m <= s.splits
    ensures forall a, b :: 0 <= a < b < |FoldsOf(s, m)| ==> FoldsOf(s, m)[a].end <= FoldsOf(s, m)[b].start
    ensures forall a :: 0 <= a < |FoldsOf(s, m)| ==> FoldsOf(s, m)[a].end <= Bound(s.Count(), s.splits, m)
  {
    hide TrainBelow, Bound;
    if m > 0 {
      FoldsInOrder(s, m - 1);
      BlockInRange(s, m - 1);
    }
  }

  // ---------------------------------------------------------------- which inputs are refused as unsorted

  ghost predicate StrictlySorted(t: seq<int>) {
    forall i, j :: 0 <= i < j < |t| ==> t[i] < t[j]
  }

  lemma InsertOrder(t: seq<int>) returns (order: seq<nat>)
    ensures IsArgsort(t, order)
  {
    var at := (i: nat) => if i < |t| then t[i] else 0;
    var leq := (i: nat, j: nat) => at(i) <= at(j);
    order := Sort(Identity(|t|), leq);
    SortSorted(Identity(|t|), leq);
    forall p | 0 <= p < |order|
      ensures order[p] < |t|
    {
      assert order[p] in order;
      InBoth(order, Identity(|t|), order[p]);
    }
  }

  lemma StrictOrderIsIdentity(t: seq<int>, order: seq<nat>)
    requires StrictlySorted(t) && IsArgsort(t, order)
    ensures order == Identity(|t|)
  {
    var key := (i: nat) => i as int;
    assert NonDecreasing(order, key);
    assert Increasing(Identity(|t|), key);
    SortedIsUnique(order, Identity(|t|), key);
  }

  // A tie can be returned the other way round.
  lemma TieHasAnotherOrder(t: seq<int>, i: nat) returns (order: seq<nat>)
    requires Sorted(t) && i + 1 < |t| && t[i] == t[i + 1]
    ensures IsArgsort(t, order) && order != Identity(|t|)
  {
    var id := Identity(|t|);
    order := id[i := i + 1][i + 1 := i];
    assert order[i] == i + 1 && id[i] == i;
  }

  /** The input is accepted whatever order the sort returns exactly when the start times are
      strictly increasing: two setups at the same time may be refused as unsorted. */
  lemma AcceptedExactlyWhenStrict(t: seq<int>)
    ensures (forall order :: IsArgsort(t, order) ==> order == Identity(|t|)) <==> StrictlySorted(t)
  {
    if StrictlySorted(t) {
      forall order | IsArgsort(t, order)
        ensures order == Identity(|t|)
      {
        StrictOrderIsIdentity(t, order);
      }
    } else if Sorted(t) {
      var i := TieOf(t);
      var order := TieHasAnotherOrder(t, i);
    } else {
      var order := InsertOrder(t);
      IdentitySorts(t);
    }
  }

  lemma TieOf(t: seq<int>) returns (i: nat)
    requires Sorted(t) && !StrictlySorted(t)
    ensures i + 1 < |t| && t[i] == t[i + 1]
  {
    var j, k :| 0 <= j < k < |t| && t[j] >= t[k];
    i := j;
    assert t[j] <= t[j + 1] <= t[k];
  }

  // ---------------------------------------------------------------- how much purging removes

  datatype Report = Report(naive: nat, purged: nat, removed: real)

  function Naive(n: nat, folds: seq<Fold>): int {
    if folds == [] then 0
    else Naive(n, folds[..|folds| - 1]) + n - (folds[|folds| - 1].end - folds[|folds| - 1].start)
  }

  function Kept(folds: seq<Fold>): nat {
    if folds == [] then 0 else Kept(folds[..|folds| - 1]) + |folds[|folds| - 1].train|
  }

  lemma Accumulate(n: nat, folds: seq<Fold>, f: Fold)
    ensures Naive(n, folds + [f]) == Naive(n, folds) + n - (f.end - f.start)
    ensures Kept(folds + [f]) == Kept(folds) + |f.train|
  {
    assert (folds + [f])[..|folds|] == folds;
  }

  lemma {:induction false} PurgingOnlyRemoves(s: Samples, m: nat)
    requires s.Valid() && s.splits > 0 && s.Count() >= 2 * s.splits && m <= s.splits
    ensures Kept(FoldsOf(s, m)) <= Naive(s.Count(), FoldsOf(s, m))
  {
    hide Bound, TrainBelow, Naive, Kept;
    if m == 0 {
      NothingYet(s.Count());
    } else {
      PurgingOnlyRemoves(s, m - 1);
      BlockInRange(s, m - 1);
      var start, end := Bound(s.Count(), s.splits, m - 1), Bound(s.Count(), s.splits, m);
      var train := TrainBelow(s, start, end, s.Count());
      Accumulate(s.Count(), FoldsOf(s, m - 1), Fold(train, start, end));
      assert |train| <= s.Count() - (end - start);
      NextFold(s, m - 1);
      assert train == [] ==> FoldsOf(s, m) == FoldsOf(s, m - 1);
    }
  }

  // Every fold paired with each sample outside its test block, and with each it trains on.
  ghost function Untested(n: nat, folds: seq<Fold>): set<(nat, nat)> {
    set k: nat, i: nat | k < |folds| && i < n && !(folds[k].start <= i < folds[k].end) :: (k, i)
  }

  ghost function Trained(folds: seq<Fold>): set<(nat, nat)> {
    set k: nat, i: nat | k < |folds| && i in folds[k].train :: (k, i)
  }

  ghost function Row(k: nat, s: seq<nat>): set<(nat, nat)> {
    set i: nat | i in s :: (k, i)
  }

  ghost predicate Shaped(n: nat, folds: seq<Fold>) {
    forall k :: 0 <= k < |folds| ==>
      folds[k].start <= folds[k].end <= n && Ascending(folds[k].train)
  }

  lemma {:induction false} RowCount(k: nat, s: seq<nat>)
    requires Ascending(s)
    ensures |Row(k, s)| == |s|
  {
    if s == [] {
      assert Row(k, s) == {};
    } else {
      var front, last := s[..|s| - 1], s[|s| - 1];
      RowCount(k, front);
      assert s == front + [last];
      assert Row(k, s) == Row(k, front) + {(k, last)};
      assert last !in front;
    }
  }

  /** The two totals count those pairs. */
  lemma {:induction false} TotalsArePairs(n: nat, folds: seq<Fold>)
    requires Shaped(n, folds)
    ensures Naive(n, folds) == |Untested(n, folds)| && Kept(folds) == |Trained(folds)|
  {
    if folds == [] {
      assert Untested(n, folds) == {} && Trained(folds) == {};
    } else {
      var k := |folds| - 1;
      TotalsArePairs(n, folds[..k]);
      var rest := Outside(n, folds[k]);
      RowCount(k, rest);
      RowCount(k, folds[k].train);
      LastRow(n, folds, rest);
    }
  }

  lemma LastRow(n: nat, folds: seq<Fold>, rest: seq<nat>)
    requires folds != []
    requires forall i: nat :: i in rest <==> i < n && !(folds[|folds| - 1].start <= i < folds[|folds| - 1].end)
    ensures var k := |folds| - 1;
            && Untested(n, folds) == Untested(n, folds[..k]) + Row(k, rest)
            && Trained(folds) == Trained(folds[..k]) + Row(k, folds[k].train)
            && Untested(n, folds[..k]) !! Row(k, rest) && Trained(folds[..k]) !! Row(k, folds[k].train)
  {
  }

  // The samples outside a test block, in order.
  lemma Outside(n: nat, f: Fold) returns (rest: seq<nat>)
    requires f.start <= f.end <= n
    ensures |rest| == n - (f.end - f.start) && Ascending(rest)
    ensures forall i: nat :: i in rest <==> i < n && !(f.start <= i < f.end)
  {
    rest := seq(n - (f.end - f.start), a requires 0 <= a => if a < f.start then a else a - f.start + f.end);
    forall i: nat | i < n && !(f.start <= i < f.end)
      ensures i in rest
    {
      assert rest[if i < f.start then i else i - f.end + f.start] == i;
    }
  }

  lemma {:induction false} FoldsAreShaped(s: Samples, m: nat)
    requires s.Valid() && s.splits > 0 && s.Count() >= 2 * s.splits && m <= s.splits
    ensures Shaped(s.Count(), FoldsOf(s, m))
  {
    hide Bound, TrainBelow;
    if m > 0 {
      FoldsAreShaped(s, m - 1);
      BlockInRange(s, m - 1);
      NextFold(s, m - 1);
      TrainAscends(s, Bound(s.Count(), s.splits, m - 1), Bound(s.Count(), s.splits, m), s.Count());
    }
  }

  lemma NothingYet(n: nat)
    ensures Kept([]) == 0 == Naive(n, [])
  {
  }

  /** Over all folds, how many samples purging could have kept and did; the fraction removed lies
      in [0, 1]. */
  method LeakageReport(s: Samples, order: seq<nat>) returns (r: Result<Report>)
    requires s.Valid() && IsArgsort(s.t0, order)
    ensures r.Ok? <==> s.Count() >= 2 * s.splits && order == Identity(s.Count())
    ensures r.Ok? && s.splits > 0 ==>
              && r.value.naive == |Untested(s.Count(), FoldsOf(s, s.splits))|
              && r.value.purged == |Trained(FoldsOf(s, s.splits))|
              && r.value.purged <= r.value.naive && 0.0 <= r.value.removed <= 1.0
              && r.value.removed * r.value.naive as real == (r.value.naive - r.value.purged) as real
  {
    hide FoldsOf, Naive, Kept, IsArgsort;
    var split := Split(s, order);
    if !split.Ok? {
      return if split.TooFew? then TooFew else Unsorted;
    }
    var folds := split.value;
    var naive: int, purged: nat := 0, 0;
    NothingYet(s.Count());
    for k := 0 to |folds|
      invariant naive == Naive(s.Count(), folds[..k]) && purged == Kept(folds[..k])
    {
      assert folds[..k + 1] == folds[..k] + [folds[k]];
      Accumulate(s.Count(), folds[..k], folds[k]);
      purged := purged + |folds[k].train|;
      naive := naive + s.Count() - (folds[k].end - folds[k].start);
    }
    assert folds[..|folds|] == folds;
    if s.splits > 0 {
      PurgingOnlyRemoves(s, s.splits);
      FoldsAreShaped(s, s.splits);
      TotalsArePairs(s.Count(), folds);
    }
    RemovedFraction(naive, purged);
    r := Ok(Report(naive, purged, if naive == 0 then 0.0 else (naive - purged) as real / naive as real));
  }

  lemma RemovedFraction(naive: nat, purged: nat)
    requires purged <= naive
    ensures naive > 0 ==>
              var f := (naive - purged) as real / naive as real;
              0.0 <= f <= 1.0 && f * naive as real == (naive - purged) as real
  {
    if naive > 0 {
      var f := (naive - purged) as real / naive as real;
      RatioBounds((naive - purged) as real, naive as real);
      assert f * naive as real == (naive - purged) as real;
    }
  }
}
