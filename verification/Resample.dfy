/** Timeframe aggregation (src/xauusd/data/resample.py): segment reductions over runs of equal
    bucket keys, the partial-bucket rule, fusion of two stages, and how resampling commutes
    with the point-in-time cut (src/xauusd/data/marketview.py). */
module Resample {
  import opened Domain
  import opened Timeframes

  // Timestamps are the bars' open times and strictly increase.
  ghost predicate Series(s: seq<Bar>) {
    forall i, j :: 0 <= i < j < |s| ==> s[i].ts < s[j].ts
  }

  // ---------------------------------------------------------------- the segmented form

  function Keys(s: seq<Bar>, target: Timeframe): (k: seq<int>)
    ensures |k| == |s| && forall i :: 0 <= i < |k| ==> k[i] == BucketStart(s[i].ts, target)
  {
    seq(|s|, i requires 0 <= i < |s| => BucketStart(s[i].ts, target))
  }

  // Positions 1..n where the key differs from the one before.
  function Boundaries(keys: seq<int>): (b: seq<nat>)
    ensures forall i :: 0 <= i < |b| ==> 0 < b[i] < |keys|
    ensures forall i, j :: 0 <= i < j < |b| ==> b[i] < b[j]
  {
    if |keys| <= 1 then []
    else
      var n := |keys| - 1;
      Boundaries(keys[..n]) + (if keys[n] != keys[n - 1] then [n] else [])
  }

  function MaxHigh(s: seq<Bar>): real
    requires s != []
  {
    if |s| == 1 then s[0].high else Max(MaxHigh(s[..|s| - 1]), s[|s| - 1].high)
  }

  function MinLow(s: seq<Bar>): real
    requires s != []
  {
    if |s| == 1 then s[0].low else Min(MinLow(s[..|s| - 1]), s[|s| - 1].low)
  }

  function MaxSpread(s: seq<Bar>): real
    requires s != []
  {
    if |s| == 1 then s[0].spread else Max(MaxSpread(s[..|s| - 1]), s[|s| - 1].spread)
  }

  function TotalVolume(s: seq<Bar>): int {
    if s == [] then 0 else TotalVolume(s[..|s| - 1]) + s[|s| - 1].volume
  }

  // One output bar: the reductions over one segment, stamped with its key.
  function Reduce(key: int, segment: seq<Bar>): Bar
    requires segment != []
  {
    Bar(key, segment[0].open, MaxHigh(segment), MinLow(segment), segment[|segment| - 1].close,
        TotalVolume(segment), MaxSpread(segment))
  }

  function SegmentStart(b: seq<nat>, j: nat): nat
    requires j <= |b|
  {
    if j == 0 then 0 else b[j - 1]
  }

  function SegmentEnd(b: seq<nat>, n: nat, j: nat): nat
    requires j <= |b|
  {
    if j == |b| then n else b[j]
  }

  // Segment j runs from its start to its end; the first starts at 0 and the last ends at n.
  function Segments(s: seq<Bar>, target: Timeframe): (out: seq<Bar>) {
    if s == [] then []
    else
      var keys := Keys(s, target);
      var b := Boundaries(keys);
      seq(|b| + 1, j requires 0 <= j <= |b| =>
        Reduce(keys[SegmentStart(b, j)], s[SegmentStart(b, j)..SegmentEnd(b, |s|, j)]))
  }

  function DropPartial(out: seq<Bar>, s: seq<Bar>, base: Timeframe, target: Timeframe): seq<Bar>
    requires s != []
  {
    if out != [] && s[|s| - 1].ts + base.Seconds() < out[|out| - 1].ts + target.Seconds()
    then out[..|out| - 1] else out
  }

  // None is the source's ValueError: the target must be a higher timeframe.
  function ResampleBars(s: seq<Bar>, base: Timeframe, target: Timeframe, dropPartial: bool): Option<seq<Bar>> {
    if target.Rank() <= base.Rank() then None
    else if s == [] then Some([])
    else
      var out := Segments(s, target);
      Some(if dropPartial then DropPartial(out, s, base, target) else out)
  }

  /** Resampling is refused exactly to a timeframe that is not higher; the bar of an unfinished
      bucket, one the last base bar does not reach the end of, is dropped exactly on request. */
  lemma PartialDroppedExactlyWhen(s: seq<Bar>, base: Timeframe, target: Timeframe, dropPartial: bool)
    ensures ResampleBars(s, base, target, dropPartial).Some? <==> target.Rank() > base.Rank()
    ensures target.Rank() > base.Rank() && s != [] ==>
              var all, end := Segments(s, target), s[|s| - 1].ts + base.Seconds();
              var unfinished := all != [] && end < all[|all| - 1].ts + target.Seconds();
              ResampleBars(s, base, target, dropPartial)
              == Some(if dropPartial && unfinished then all[..|all| - 1] else all)
  {
    hide Segments;
  }

  // ---------------------------------------------------------------- the streaming form

  function Lift(key: int, b: Bar): Bar {
    b.(ts := key)
  }

  function Merge(x: Bar, b: Bar): Bar {
    Bar(x.ts, x.open, Max(x.high, b.high), Min(x.low, b.low), b.close, x.volume + b.volume, Max(x.spread, b.spread))
  }

  function Absorb(out: seq<Bar>, b: Bar, target: Timeframe): seq<Bar> {
    var key := BucketStart(b.ts, target);
    if out != [] && out[|out| - 1].ts == key
    then out[..|out| - 1] + [Merge(out[|out| - 1], b)]
    else out + [Lift(key, b)]
  }

  // One bar at a time: extend the last bucket or open a new one.
  function Stream(s: seq<Bar>, target: Timeframe): seq<Bar> {
    if s == [] then [] else Absorb(Stream(s[..|s| - 1], target), s[|s| - 1], target)
  }

  lemma ReduceExtends(key: int, segment: seq<Bar>, b: Bar)
    requires segment != []
    ensures Reduce(key, segment + [b]) == Merge(Reduce(key, segment), b)
  {
    var longer := segment + [b];
    assert longer[..|longer| - 1] == segment;
  }

  lemma OneBar(b: Bar, target: Timeframe)
    ensures Segments([b], target) == [Lift(BucketStart(b.ts, target), b)]
  {
    hide BucketStart;
    var s := [b];
    assert s[0..1] == s;
    ReduceOne(BucketStart(b.ts, target), b);
  }

  /** The segment reductions compute what absorbing the bars one at a time computes. */
  lemma {:induction false} SegmentsAreStream(s: seq<Bar>, target: Timeframe)
    ensures Segments(s, target) == Stream(s, target)
    ensures s != [] ==> var out := Stream(s, target);
            out != [] && out[|out| - 1].ts == BucketStart(s[|s| - 1].ts, target)
  {
    hide BucketStart, Segments;
    if |s| == 1 {
      assert s == [s[0]] && s[..0] == [];
      OneBar(s[0], target);
    } else if s != [] {
      SegmentsAreStream(s[..|s| - 1], target);
      if BucketStart(s[|s| - 1].ts, target) == BucketStart(s[|s| - 2].ts, target) {
        SegmentGrows(s, target);
      } else {
        SegmentOpens(s, target);
      }
    } else {
      NoBars(target);
    }
  }

  lemma NoBars(target: Timeframe)
    ensures Segments([], target) == []
  {
  }

  lemma PrefixSlice(s: seq<Bar>, n: nat, i: nat, j: nat)
    requires i <= j <= n <= |s|
    ensures s[..n][i..j] == s[i..j]
  {
  }

  lemma BoundariesStep(s: seq<Bar>, target: Timeframe)
    requires |s| >= 2
    ensures var n := |s| - 1;
            var b := Boundaries(Keys(s[..n], target));
            Boundaries(Keys(s, target))
            == if BucketStart(s[n].ts, target) != BucketStart(s[n - 1].ts, target) then b + [n] else b
  {
    hide BucketStart;
    assert Keys(s, target)[..|s| - 1] == Keys(s[..|s| - 1], target);
  }

  lemma SegmentGrows(s: seq<Bar>, target: Timeframe)
    requires |s| >= 2 && BucketStart(s[|s| - 1].ts, target) == BucketStart(s[|s| - 2].ts, target)
    ensures var fout, out := Segments(s[..|s| - 1], target), Segments(s, target);
            fout != [] && out == fout[..|fout| - 1] + [Merge(fout[|fout| - 1], s[|s| - 1])]
  {
    hide BucketStart, Reduce, Boundaries;
    var n := |s| - 1;
    var front := s[..n];
    BoundariesStep(s, target);
    var b := Boundaries(Keys(front, target));
    var fout, out := Segments(front, target), Segments(s, target);
    var start := SegmentStart(b, |b|);
    forall j | 0 <= j < |b|
      ensures out[j] == fout[j]
    {
      PrefixSlice(s, n, SegmentStart(b, j), b[j]);
    }
    PrefixSlice(s, n, start, n);
    assert s[start..|s|] == s[start..n] + [s[n]];
    ReduceExtends(BucketStart(s[start].ts, target), s[start..n], s[n]);
  }

  lemma SegmentOpens(s: seq<Bar>, target: Timeframe)
    requires |s| >= 2 && BucketStart(s[|s| - 1].ts, target) != BucketStart(s[|s| - 2].ts, target)
    ensures Segments(s, target)
            == Segments(s[..|s| - 1], target) + [Lift(BucketStart(s[|s| - 1].ts, target), s[|s| - 1])]
  {
    hide BucketStart, Boundaries, Reduce;
    var n := |s| - 1;
    var front := s[..n];
    BoundariesStep(s, target);
    var b := Boundaries(Keys(front, target));
    var fout, out := Segments(front, target), Segments(s, target);
    forall j | 0 <= j < |fout|
      ensures out[j] == fout[j]
    {
      PrefixSlice(s, n, SegmentStart(b, j), SegmentEnd(b, n, j));
    }
    assert s[n..|s|] == [s[n]];
    ReduceOne(BucketStart(s[n].ts, target), s[n]);
  }

  lemma ReduceOne(key: int, b: Bar)
    ensures Reduce(key, [b]) == Lift(key, b)
  {
    assert TotalVolume([b]) == TotalVolume([b][..0]) + b.volume;
  }

  // ---------------------------------------------------------------- what an output bar says

  /** Bar x summarises s[lo..hi], and these are exactly the bars of its bucket: it opens with the
      first and closes with the last, its extremes are theirs, its volume is their total. */
  ghost predicate Summarises(s: seq<Bar>, target: Timeframe, x: Bar, lo: nat, hi: nat) {
    && lo < hi <= |s|
    && (forall i :: 0 <= i < |s| ==> (lo <= i < hi <==> BucketStart(s[i].ts, target) == x.ts))
    && x.open == s[lo].open && x.close == s[hi - 1].close && x.volume == TotalVolume(s[lo..hi])
    && Spans(s, x, lo, hi)
  }

  // The bar's high, low and spread are the most extreme of s[lo..hi].
  ghost predicate Spans(s: seq<Bar>, x: Bar, lo: nat, hi: nat)
    requires lo < hi <= |s|
  {
    && (forall i :: lo <= i < hi ==> x.low <= s[i].low && s[i].high <= x.high && s[i].spread <= x.spread)
    && (exists i :: lo <= i < hi && s[i].high == x.high)
    && (exists i :: lo <= i < hi && s[i].low == x.low)
    && (exists i :: lo <= i < hi && s[i].spread == x.spread)
  }

  lemma SpanGrows(s: seq<Bar>, x: Bar, lo: nat)
    requires lo + 1 < |s| && Spans(s[..|s| - 1], x, lo, |s| - 1)
    ensures Spans(s, Merge(x, s[|s| - 1]), lo, |s|)
  {
    var n := |s| - 1;
    var front, b, y := s[..n], s[n], Merge(x, s[n]);
    assert forall i :: 0 <= i < n ==> front[i] == s[i];
    var h :| lo <= h < n && front[h].high == x.high;
    assert s[if x.high >= b.high then h else n].high == y.high;
    var l :| lo <= l < n && front[l].low == x.low;
    assert s[if x.low <= b.low then l else n].low == y.low;
    var p :| lo <= p < n && front[p].spread == x.spread;
    assert s[if x.spread >= b.spread then p else n].spread == y.spread;
  }

  ghost predicate IsSummary(s: seq<Bar>, target: Timeframe, x: Bar) {
    exists lo, hi :: Summarises(s, target, x, lo, hi)
  }

  lemma KeysGrow(s: seq<Bar>, target: Timeframe, i: nat, j: nat)
    requires Series(s) && i <= j < |s|
    ensures BucketStart(s[i].ts, target) <= BucketStart(s[j].ts, target)
  {
    hide BucketStart;
    BucketMonotone(s[i].ts, s[j].ts, target);
  }

  lemma {:induction false} StreamAscends(s: seq<Bar>, target: Timeframe)
    requires Series(s)
    ensures var out := Stream(s, target);
            && (s == [] ==> out == [])
            && (forall i, j :: 0 <= i < j < |out| ==> out[i].ts < out[j].ts)
            && (s != [] ==> out != [] && out[|out| - 1].ts == BucketStart(s[|s| - 1].ts, target))
  {
    hide BucketStart, Absorb;
    if s != [] {
      var n := |s| - 1;
      SeriesFront(s);
      StreamAscends(s[..n], target);
      if n > 0 {
        KeysGrow(s, target, n - 1, n);
      }
      AbsorbAscends(Stream(s[..n], target), s[n], target);
    }
  }

  lemma SeriesFront(s: seq<Bar>)
    requires Series(s) && s != []
    ensures Series(s[..|s| - 1])
  {
  }

  lemma AbsorbAscends(out: seq<Bar>, b: Bar, target: Timeframe)
    requires forall i, j :: 0 <= i < j < |out| ==> out[i].ts < out[j].ts
    requires out != [] ==> out[|out| - 1].ts <= BucketStart(b.ts, target)
    ensures var r := Absorb(out, b, target);
            && (forall i, j :: 0 <= i < j < |r| ==> r[i].ts < r[j].ts)
            && r != [] && r[|r| - 1].ts == BucketStart(b.ts, target)
  {
    hide BucketStart;
  }

  lemma GrownSummary(s: seq<Bar>, target: Timeframe, x: Bar, lo: nat)
    requires s != [] && Summarises(s[..|s| - 1], target, x, lo, |s| - 1)
    requires BucketStart(s[|s| - 1].ts, target) == x.ts
    ensures Summarises(s, target, Merge(x, s[|s| - 1]), lo, |s|)
  {
    hide BucketStart, Spans;
    var n := |s| - 1;
    var front, b := s[..n], s[n];
    assert forall i :: 0 <= i < n ==> front[i] == s[i];
    assert s[lo..|s|] == front[lo..n] + [b];
    DropLastOf(front[lo..n], b);
    SpanGrows(s, x, lo);
  }

  lemma OpenedSummary(s: seq<Bar>, target: Timeframe)
    requires Series(s) && s != []
    requires |s| > 1 ==> BucketStart(s[|s| - 2].ts, target) != BucketStart(s[|s| - 1].ts, target)
    ensures Summarises(s, target, Lift(BucketStart(s[|s| - 1].ts, target), s[|s| - 1]), |s| - 1, |s|)
  {
    hide BucketStart, Series;
    var n := |s| - 1;
    forall i | 0 <= i < n
      ensures BucketStart(s[i].ts, target) != BucketStart(s[n].ts, target)
    {
      KeysGrow(s, target, i, n - 1);
      KeysGrow(s, target, n - 1, n);
    }
    var x := Lift(BucketStart(s[n].ts, target), s[n]);
    assert s[n..|s|] == [s[n]];
    ReduceOne(x.ts, s[n]);
    assert x.volume == TotalVolume(s[n..|s|]);
    assert s[n].high == x.high && s[n].low == x.low && s[n].spread == x.spread;
  }

  lemma SummaryStays(s: seq<Bar>, target: Timeframe, x: Bar, lo: nat, hi: nat)
    requires s != [] && Summarises(s[..|s| - 1], target, x, lo, hi)
    requires BucketStart(s[|s| - 1].ts, target) != x.ts
    ensures Summarises(s, target, x, lo, hi)
  {
    hide BucketStart;
    var front := s[..|s| - 1];
    assert forall i :: 0 <= i < |front| ==> front[i] == s[i];
    assert s[lo..hi] == front[lo..hi];
  }

  // A summary whose bucket holds the last bar ends there.
  lemma SummaryEnds(s: seq<Bar>, target: Timeframe, x: Bar, lo: nat, hi: nat)
    requires s != [] && Summarises(s, target, x, lo, hi) && BucketStart(s[|s| - 1].ts, target) == x.ts
    ensures hi == |s|
  {
    hide BucketStart;
  }

  lemma {:induction false} BucketAt(s: seq<Bar>, target: Timeframe, k: nat) returns (lo: nat, hi: nat)
    requires Series(s) && k < |Stream(s, target)|
    ensures Summarises(s, target, Stream(s, target)[k], lo, hi)
  {
    hide BucketStart, Summarises, Series, Stream, Merge, Lift;
    StreamAscends(s, target);
    var n := |s| - 1;
    var front := s[..n];
    var before := Stream(front, target);
    SeriesFront(s);
    assert s == front + [s[n]];
    StreamExtends(front, s[n], target);
    StreamAscends(front, target);
    if k < |Stream(s, target)| - 1 {
      lo, hi := BucketAt(front, target, k);
      var after := Stream(s, target);
      assert before[k] == after[k] && after[k].ts < after[|after| - 1].ts;
      SummaryStays(s, target, before[k], lo, hi);
    } else if k < |before| {
      lo, hi := BucketAt(front, target, k);
      SummaryEnds(front, target, before[k], lo, hi);
      GrownSummary(s, target, before[k], lo);
      hi := |s|;
    } else {
      OpenedSummary(s, target);
      lo, hi := n, |s|;
    }
  }

  /** Resampling in prices: the output is in time order; each of its bars summarises exactly the bars
      of its bucket; and every bar is in the bucket of one. */
  lemma ResampledMeans(s: seq<Bar>, target: Timeframe)
    requires Series(s)
    ensures var out := Segments(s, target);
            && (forall i, j :: 0 <= i < j < |out| ==> out[i].ts < out[j].ts)
            && (forall k :: 0 <= k < |out| ==> IsSummary(s, target, out[k]))
            && (forall i :: 0 <= i < |s| ==>
                  exists k :: 0 <= k < |out| && out[k].ts == BucketStart(s[i].ts, target))
  {
    hide BucketStart, Summarises, Stream, Segments, Series;
    SegmentsAreStream(s, target);
    StreamAscends(s, target);
    var out := Segments(s, target);
    forall k | 0 <= k < |out|
      ensures IsSummary(s, target, out[k])
    {
      var lo, hi := BucketAt(s, target, k);
      assert Summarises(s, target, out[k], lo, hi);
    }
    forall i | 0 <= i < |s|
      ensures exists k :: 0 <= k < |out| && out[k].ts == BucketStart(s[i].ts, target)
    {
      var k := BucketOf(s, target, i);
    }
  }

  lemma {:induction false} BucketOf(s: seq<Bar>, target: Timeframe, i: nat) returns (k: nat)
    requires i < |s|
    ensures k < |Stream(s, target)| && Stream(s, target)[k].ts == BucketStart(s[i].ts, target)
  {
    hide BucketStart;
    var n := |s| - 1;
    if i == n {
      k := |Stream(s, target)| - 1;
    } else {
      k := BucketOf(s[..n], target, i);
    }
  }

  // ---------------------------------------------------------------- fusion and conservation

  lemma MergeAssociates(x: Bar, m: Bar, b: Bar)
    ensures Merge(x, Merge(m, b)) == Merge(Merge(x, m), b)
  {
  }

  lemma AbsorbMerged(out: seq<Bar>, m: Bar, b: Bar, target: Timeframe)
    requires BucketStart(m.ts, target) == BucketStart(b.ts, target)
    ensures Absorb(out, Merge(m, b), target) == Absorb(Absorb(out, m, target), b, target)
  {
    hide BucketStart;
    if out != [] {
      MergeAssociates(out[|out| - 1], m, b);
    }
  }

  lemma DropLastOf(s: seq<Bar>, b: Bar)
    ensures (s + [b])[..|s + [b]| - 1] == s
  {
  }

  lemma StreamExtends(s: seq<Bar>, b: Bar, target: Timeframe)
    ensures Stream(s + [b], target) == Absorb(Stream(s, target), b, target)
  {
    DropLastOf(s, b);
  }

  lemma {:induction false} StreamFuses(s: seq<Bar>, mid: Timeframe, target: Timeframe)
    requires Nests(mid, target)
    ensures Stream(Stream(s, mid), target) == Stream(s, target)
  {
    hide BucketStart, Absorb;
    if s != [] {
      var front, b := s[..|s| - 1], s[|s| - 1];
      StreamFuses(front, mid, target);
      FuseStep(Stream(front, mid), b, mid, target);
    }
  }

  lemma FuseStep(m: seq<Bar>, b: Bar, mid: Timeframe, target: Timeframe)
    requires Nests(mid, target)
    ensures Stream(Absorb(m, b, mid), target) == Absorb(Stream(m, target), b, target)
  {
    hide BucketStart, Merge, Stream;
    var key := BucketStart(b.ts, mid);
    assert NestsAt(mid, target, b.ts);
    if m != [] && m[|m| - 1].ts == key {
      var init, last := m[..|m| - 1], m[|m| - 1];
      assert m == init + [last];
      StreamExtends(init, Merge(last, b), target);
      StreamExtends(init, last, target);
      AbsorbMerged(Stream(init, target), last, b, target);
    } else {
      StreamExtends(m, Lift(key, b), target);
      AbsorbSameKey(Stream(m, target), b, target, key);
    }
  }

  // Absorbing looks at a bar only through its bucket.
  lemma AbsorbSameKey(out: seq<Bar>, b: Bar, target: Timeframe, key: int)
    requires BucketStart(key, target) == BucketStart(b.ts, target)
    ensures Absorb(out, Lift(key, b), target) == Absorb(out, b, target)
  {
    hide BucketStart;
  }

  ghost predicate Fuses(base: Timeframe, mid: Timeframe, target: Timeframe) {
    forall s :: Series(s) && ResampleBars(s, base, mid, false).Some? ==>
      ResampleBars(ResampleBars(s, base, mid, false).value, mid, target, false)
      == ResampleBars(s, base, target, false)
  }

  /** Aggregation fusion: without the partial-bucket rule, resampling through a middle timeframe
      equals resampling directly, for every history, exactly when the middle one nests: always
      except four-hour buckets into daily or weekly ones. */
  lemma FusionExactlyWhenNested(base: Timeframe, mid: Timeframe, target: Timeframe)
    requires base.Rank() < mid.Rank() < target.Rank()
    ensures Fuses(base, mid, target) <==> !(mid == H4 && target in {D1, W1})
  {
    hide BucketStart, Stream, Segments, Timeframe.Seconds;
    NestingTable(mid, target);
    if Nests(mid, target) {
      forall s | Series(s)
        ensures ResampleBars(ResampleBars(s, base, mid, false).value, mid, target, false)
                == ResampleBars(s, base, target, false)
      {
        SegmentsAreStream(s, mid);
        SegmentsAreStream(s, target);
        SegmentsAreStream(Stream(s, mid), target);
        StreamFuses(s, mid, target);
      }
    } else {
      StraddlingWitness(base, target);
    }
  }

  lemma StreamOfOne(b: Bar, target: Timeframe)
    ensures Stream([b], target) == [Lift(BucketStart(b.ts, target), b)]
  {
    hide BucketStart;
    assert [b][..0] == [];
  }

  lemma StreamOfTwo(a: Bar, b: Bar, target: Timeframe)
    ensures |Stream([a, b], target)| == if BucketStart(a.ts, target) == BucketStart(b.ts, target) then 1 else 2
  {
    hide BucketStart;
    StreamOfOne(a, target);
    StreamExtends([a], b, target);
    assert [a, b] == [a] + [b];
  }

  lemma StraddlingKeys(x: int, y: int, target: Timeframe)
    requires x == 3 * DAY + ROLL - 1800 && y == 3 * DAY + ROLL + 1800 && target in {D1, W1}
    ensures BucketStart(x, H4) == BucketStart(y, H4) && BucketStart(x, target) != BucketStart(y, target)
  {
  }

  // Two bars of one four-hour bucket on either side of the Sunday 22:00 roll.
  lemma StraddlingWitness(base: Timeframe, target: Timeframe)
    requires base.Rank() < H4.Rank() && target in {D1, W1}
    ensures !Fuses(base, H4, target)
  {
    hide BucketStart, Stream, Segments;
    var x, y := 3 * DAY + ROLL - 1800, 3 * DAY + ROLL + 1800;
    StraddlingKeys(x, y, target);
    var a, b := Bar(x, 1.0, 1.0, 1.0, 1.0, 1, 0.0), Bar(y, 1.0, 1.0, 1.0, 1.0, 1, 0.0);
    var s := [a, b];
    SegmentsAreStream(s, H4);
    SegmentsAreStream(s, target);
    StreamOfTwo(a, b, H4);
    StreamOfTwo(a, b, target);
    var one := Stream(s, H4);
    assert one == [one[0]];
    SegmentsAreStream(one, target);
    StreamOfOne(one[0], target);
    assert Series(s) && ResampleBars(s, base, H4, false) == Some(one);
  }

  /** Tick volume is conserved by aggregation. */
  lemma VolumeConserved(s: seq<Bar>, target: Timeframe)
    ensures TotalVolume(Segments(s, target)) == TotalVolume(s)
  {
    SegmentsAreStream(s, target);
    StreamVolume(s, target);
  }

  lemma AbsorbVolume(out: seq<Bar>, b: Bar, target: Timeframe)
    ensures TotalVolume(Absorb(out, b, target)) == TotalVolume(out) + b.volume
  {
    hide BucketStart;
    var key := BucketStart(b.ts, target);
    if out != [] && out[|out| - 1].ts == key {
      DropLastOf(out[..|out| - 1], Merge(out[|out| - 1], b));
    } else {
      DropLastOf(out, Lift(key, b));
    }
  }

  lemma {:induction false} StreamVolume(s: seq<Bar>, target: Timeframe)
    ensures TotalVolume(Stream(s, target)) == TotalVolume(s)
  {
    hide BucketStart, Absorb;
    if s != [] {
      StreamVolume(s[..|s| - 1], target);
      AbsorbVolume(Stream(s[..|s| - 1], target), s[|s| - 1], target);
    }
  }
}
