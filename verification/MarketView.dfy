/** The point-in-time boundary (src/xauusd/data/marketview.py): which bars are visible at an
    instant, the cache in front of that cut, and how the cut commutes with resampling. */
module MarketView {
  import opened Domain
  import opened Sequences
  import opened Timeframes
  import opened Resample

  // ---------------------------------------------------------------- the cut

  // Number of leading bars opening at or before the cutoff.
  function CountUpTo(s: seq<Bar>, cutoff: int): (n: nat)
    ensures n <= |s|
  {
    if s == [] then 0 else if s[|s| - 1].ts <= cutoff then |s| else CountUpTo(s[..|s| - 1], cutoff)
  }

  function Visible(s: seq<Bar>, tf: Timeframe, now: int): seq<Bar> {
    s[..CountUpTo(s, now - tf.Seconds())]
  }

  // Exactly the bars at or before the cutoff are counted.
  lemma {:induction false} CountMeaning(s: seq<Bar>, cutoff: int)
    requires Series(s)
    ensures forall i :: 0 <= i < |s| ==> (i < CountUpTo(s, cutoff) <==> s[i].ts <= cutoff)
  {
    if s != [] && s[|s| - 1].ts > cutoff {
      CountMeaning(s[..|s| - 1], cutoff);
    }
  }

  lemma CountUnique(s: seq<Bar>, cutoff: int, n: nat)
    requires Series(s) && n <= |s|
    requires forall i :: 0 <= i < |s| ==> (i < n <==> s[i].ts <= cutoff)
    ensures n == CountUpTo(s, cutoff)
  {
    CountMeaning(s, cutoff);
    var m := CountUpTo(s, cutoff);
    assert n < |s| ==> (n < m <==> s[n].ts <= cutoff);
    assert m < |s| ==> (m < n <==> s[m].ts <= cutoff);
  }

  /** A view contains exactly the bars that have closed by its instant. */
  lemma VisibleMeaning(s: seq<Bar>, tf: Timeframe, now: int)
    requires Series(s)
    ensures Visible(s, tf, now) <= s && Series(Visible(s, tf, now))
    ensures forall b :: b in s ==> (b in Visible(s, tf, now) <==> b.ts + tf.Seconds() <= now)
  {
    hide Timeframe.Seconds, CountUpTo, Series;
    CountMeaning(s, now - tf.Seconds());
    var n := CountUpTo(s, now - tf.Seconds());
    forall b | b in s
      ensures b in s[..n] <==> b.ts + tf.Seconds() <= now
    {
      var i :| 0 <= i < |s| && s[i] == b;
      if i < n {
        assert s[..n][i] == b;
      }
    }
    PrefixSeries(s, n);
  }

  lemma PrefixSeries(s: seq<Bar>, n: nat)
    requires Series(s) && n <= |s|
    ensures Series(s[..n])
  {
  }

  /** No look-ahead: bars that have not closed by `now` cannot change a view at `now`. */
  lemma {:induction false} FutureIsInvisible(s: seq<Bar>, future: seq<Bar>, tf: Timeframe, now: int)
    requires forall b :: b in future ==> b.ts + tf.Seconds() > now
    ensures Visible(s + future, tf, now) == Visible(s, tf, now)
  {
    if future == [] {
      assert s + future == s;
    } else {
      var all := s + future;
      assert all[|all| - 1] == future[|future| - 1] && future[|future| - 1] in future;
      assert all[..|all| - 1] == s + future[..|future| - 1];
      FutureIsInvisible(s, future[..|future| - 1], tf, now);
      assert Visible(all, tf, now) == Visible(all[..|all| - 1], tf, now);
    }
  }

  /** A later view extends an earlier one. */
  lemma VisibleGrows(s: seq<Bar>, tf: Timeframe, now: int, later: int)
    requires Series(s) && now <= later
    ensures Visible(s, tf, now) <= Visible(s, tf, later)
  {
    var x, y := now - tf.Seconds(), later - tf.Seconds();
    CountMeaning(s, x);
    CountMeaning(s, y);
    var n, m := CountUpTo(s, x), CountUpTo(s, y);
    assert m < |s| ==> s[m].ts > y && !(m < n);
  }

  // ---------------------------------------------------------------- binary search

  // Leftmost insertion point to the right of equal entries.
  method SearchRight(s: seq<Bar>, x: int) returns (n: nat)
    requires Series(s)
    ensures n == CountUpTo(s, x)
  {
    var lo, hi := 0, |s|;
    while lo < hi
      invariant 0 <= lo <= hi <= |s|
      invariant forall i :: 0 <= i < lo ==> s[i].ts <= x
      invariant forall i :: hi <= i < |s| ==> s[i].ts > x
    {
      var mid := (lo + hi) / 2;
      if s[mid].ts <= x {
        lo := mid + 1;
      } else {
        hi := mid;
      }
    }
    n := lo;
    CountUnique(s, x, n);
  }

  // Leftmost insertion point to the left of equal entries.
  method SearchLeft(s: seq<Bar>, x: int) returns (n: nat)
    requires Series(s)
    ensures n == CountUpTo(s, x - 1)
  {
    n := SearchRight(s, x - 1);
  }

  // ---------------------------------------------------------------- the view

  function Tail(s: seq<Bar>, n: int): seq<Bar> {
    if n > 0 then s[if |s| > n then |s| - n else 0..] else s
  }

  class View {
    const source: map<Timeframe, seq<Bar>>
    const now: int
    var cache: map<(Timeframe, int), seq<Bar>>

    ghost predicate SortedSource() {
      forall tf :: tf in source ==> Series(source[tf])
    }

    function Full(tf: Timeframe): seq<Bar> {
      if tf in source then source[tf] else []
    }

    // What each cache key must hold: -1 keeps the whole view, any other key its tail.
    ghost function Promised(key: (Timeframe, int)): seq<Bar> {
      Tail(Visible(Full(key.0), key.0, now), key.1)
    }

    ghost predicate Valid()
      reads this
    {
      SortedSource() && forall key :: key in cache ==> cache[key] == Promised(key)
    }

    constructor (source: map<Timeframe, seq<Bar>>, now: int)
      requires forall tf :: tf in source ==> Series(source[tf])
      ensures Valid() && this.source == source && this.now == now && cache == map[]
    {
      this.source := source;
      this.now := now;
      this.cache := map[];
    }

    method VisibleBars(tf: Timeframe) returns (view: seq<Bar>)
      requires Valid()
      modifies this`cache
      ensures Valid()
      ensures view == Visible(Full(tf), tf, now)
    {
      var key := (tf, -1);
      if key in cache {
        return cache[key];
      }
      var full := Full(tf);
      if full == [] {
        cache := cache[key := full];
        return full;
      }
      var n := SearchRight(full, now - tf.Seconds());
      view := full[..n];
      cache := cache[key := view];
    }

    // The last `count` closed bars; a count of zero or less returns the whole view.
    method Bars(tf: Timeframe, count: Option<int>) returns (r: seq<Bar>)
      requires Valid()
      modifies this`cache
      ensures Valid()
      ensures r == if count == None then Visible(Full(tf), tf, now) else Tail(Visible(Full(tf), tf, now), count.value)
      ensures var visible := Visible(Full(tf), tf, now);
              if count.Some? && 0 < count.value < |visible|
              then |r| == count.value && visible[|visible| - count.value..] == r else r == visible
    {
      var vis := VisibleBars(tf);
      if count == None || count.value >= |vis| {
        return vis;
      }
      var key := (tf, count.value);
      if key !in cache {
        r := Tail(vis, count.value);
        cache := cache[key := r];
      } else {
        r := cache[key];
      }
    }

    method BarsBetween(tf: Timeframe, start: int, end: Option<int>) returns (r: seq<Bar>)
      requires Valid()
      modifies this`cache
      ensures Valid()
      ensures r == Between(Full(tf), tf, now, start, end)
    {
      var stop := if end == None || end.value > now then now else end.value;
      var vis := VisibleBars(tf);
      VisibleMeaning(Full(tf), tf, now);
      var i0 := SearchLeft(vis, start);
      var i1 := SearchRight(vis, stop);
      r := if i0 <= i1 then vis[i0..i1] else [];
    }
  }

  function Between(s: seq<Bar>, tf: Timeframe, now: int, start: int, end: Option<int>): seq<Bar> {
    var stop := if end == None || end.value > now then now else end.value;
    var vis := Visible(s, tf, now);
    var i0, i1 := CountUpTo(vis, start - 1), CountUpTo(vis, stop);
    if i0 <= i1 then vis[i0..i1] else []
  }

  lemma RangeMeaning(vis: seq<Bar>, start: int, stop: int)
    requires Series(vis)
    ensures var i0, i1 := CountUpTo(vis, start - 1), CountUpTo(vis, stop);
            forall b :: b in (if i0 <= i1 then vis[i0..i1] else []) <==> b in vis && start <= b.ts <= stop
  {
    hide Series;
    CountMeaning(vis, start - 1);
    CountMeaning(vis, stop);
    var i0, i1 := CountUpTo(vis, start - 1), CountUpTo(vis, stop);
    var r := if i0 <= i1 then vis[i0..i1] else [];
    forall b
      ensures b in r <==> b in vis && start <= b.ts <= stop
    {
      if b in r {
        var j :| 0 <= j < |r| && r[j] == b;
        assert vis[i0 + j] == b;
      }
      if b in vis && start <= b.ts <= stop {
        var j :| 0 <= j < |vis| && vis[j] == b;
        assert i0 <= j < i1;
        assert r[j - i0] == b;
      }
    }
  }

  lemma SliceSeries(s: seq<Bar>, i: nat, j: nat)
    requires Series(s) && i <= j <= |s|
    ensures Series(s[i..j])
  {
  }

  /** A range query returns exactly the closed bars that open in the range, in order, whatever end
      was asked. */
  lemma BetweenMeaning(s: seq<Bar>, tf: Timeframe, now: int, start: int, end: Option<int>)
    requires Series(s)
    ensures forall b :: b in Between(s, tf, now, start, end) <==>
              b in s && b.ts + tf.Seconds() <= now && start <= b.ts && (end == None || b.ts <= end.value)
    ensures Series(Between(s, tf, now, start, end))
  {
    hide Series, CountUpTo, Visible;
    var stop := if end == None || end.value > now then now else end.value;
    var vis := Visible(s, tf, now);
    VisibleMeaning(s, tf, now);
    RangeMeaning(vis, start, stop);
    assert forall b :: b in vis ==> b in s;
    var i0, i1 := CountUpTo(vis, start - 1), CountUpTo(vis, stop);
    SliceSeries(vis, if i0 <= i1 then i0 else 0, if i0 <= i1 then i1 else 0);
    assert i0 > i1 ==> vis[0..0] == [];
  }

  // ---------------------------------------------------------------- resampling and the cut

  // Every base bar lies inside one bucket of the target.
  ghost predicate NestedBars(s: seq<Bar>, base: Timeframe, target: Timeframe) {
    forall b :: b in s ==> b.ts + base.Seconds() <= BucketStart(b.ts, target) + target.Seconds()
  }

  /** Bars that open on their own grid nest in every timeframe theirs nests in. */
  lemma AlignedBarsNest(s: seq<Bar>, base: Timeframe, target: Timeframe)
    requires base.Rank() < target.Rank() && !(base == H4 && target in {D1, W1})
    requires forall b :: b in s ==> BucketStart(b.ts, base) == b.ts
    ensures NestedBars(s, base, target)
  {
    hide BucketStart, Timeframe.Seconds, Anchor;
    RatioAndShift(base, target);
    forall b | b in s
      ensures b.ts + base.Seconds() <= BucketStart(b.ts, target) + target.Seconds()
    {
      GridNests(b.ts, base, target, target.Seconds() / base.Seconds(),
          (Anchor(target) - Anchor(base)) / base.Seconds());
    }
  }

  // The stream's timestamps are the buckets of the bars, a full width apart.
  ghost predicate BucketSpaced(out: seq<Bar>, target: Timeframe) {
    forall i, j :: 0 <= i < j < |out| ==> out[i].ts + target.Seconds() <= out[j].ts
  }

  lemma AbsorbSpaced(out: seq<Bar>, b: Bar, target: Timeframe)
    requires BucketSpaced(out, target)
    requires out != [] ==> var last, key := out[|out| - 1].ts, BucketStart(b.ts, target);
            last == key || last + target.Seconds() <= key
    ensures var r := Absorb(out, b, target);
            BucketSpaced(r, target) && r != [] && r[|r| - 1].ts == BucketStart(b.ts, target)
  {
    hide BucketStart, Timeframe.Seconds;
    var r, w := Absorb(out, b, target), target.Seconds();
    assert forall i :: 0 <= i < |out| ==> r[i].ts == out[i].ts;
    forall i, j | 0 <= i < j < |r|
      ensures r[i].ts + w <= r[j].ts
    {
      if j == |out| && i < |out| - 1 {
        assert out[i].ts + w <= out[|out| - 1].ts;
      }
    }
  }

  lemma {:induction false} StreamSpaced(s: seq<Bar>, target: Timeframe)
    requires Series(s)
    ensures BucketSpaced(Stream(s, target), target)
    ensures s != [] ==>
              var out := Stream(s, target); out != [] && out[|out| - 1].ts == BucketStart(s[|s| - 1].ts, target)
  {
    hide BucketStart, Timeframe.Seconds, BucketSpaced, Absorb;
    if s != [] {
      var front, b := s[..|s| - 1], s[|s| - 1];
      StreamSpaced(front, target);
      if front != [] {
        BucketMonotone(front[|front| - 1].ts, b.ts, target);
      }
      AbsorbSpaced(Stream(front, target), b, target);
    } else {
      NothingSpaced(target);
    }
  }

  lemma NothingSpaced(target: Timeframe)
    ensures BucketSpaced(Stream([], target), target)
  {
  }

  // `later` keeps every bucket of `now` but the last, and the last one's start.
  ghost predicate Extends(now: seq<Bar>, later: seq<Bar>) {
    && |now| <= |later|
    && (forall i :: 0 <= i < |now| ==> later[i].ts == now[i].ts)
    && (forall i :: 0 <= i < |now| - 1 ==> later[i] == now[i])
  }

  lemma AbsorbExtends(out: seq<Bar>, b: Bar, target: Timeframe)
    ensures Extends(out, Absorb(out, b, target))
  {
    hide BucketStart;
  }

  // More bars leave all but the last bucket as they were.
  lemma {:induction false} StreamExtendsPrefix(s: seq<Bar>, more: seq<Bar>, target: Timeframe)
    ensures Extends(Stream(s, target), Stream(s + more, target))
  {
    hide BucketStart, Absorb, Stream;
    if more == [] {
      assert s + more == s;
    } else {
      var m := |more| - 1;
      assert s + more == (s + more[..m]) + [more[m]];
      StreamExtendsPrefix(s, more[..m], target);
      StreamExtends(s + more[..m], more[m], target);
      AbsorbExtends(Stream(s + more[..m], target), more[m], target);
    }
  }

  // A bar of a later bucket closes the current one for good.
  lemma StreamCloses(s: seq<Bar>, more: seq<Bar>, target: Timeframe)
    requires s != [] && more != [] && Stream(s, target) != []
    requires BucketStart(more[0].ts, target) != Stream(s, target)[|Stream(s, target)| - 1].ts
    ensures var x, y := Stream(s, target), Stream(s + more, target);
            |x| < |y| && y[..|x|] == x && y[|x|].ts == BucketStart(more[0].ts, target)
  {
    hide BucketStart, Stream;
    var next := s + [more[0]];
    StreamExtends(s, more[0], target);
    assert s + more == next + more[1..];
    StreamExtendsPrefix(next, more[1..], target);
    var x, y := Stream(s, target), Stream(s + more, target);
    assert Stream(next, target) == x + [Lift(BucketStart(more[0].ts, target), more[0])];
    assert forall i :: 0 <= i < |x| ==> y[i] == x[i];
  }

  /** The last base bar visible at `now` closed before its bucket did, and the bucket is over. */
  ghost predicate GapAtBucketEnd(visible: seq<Bar>, base: Timeframe, target: Timeframe, now: int) {
    visible != []
    && var last := visible[|visible| - 1].ts;
       var bucketEnd := BucketStart(last, target) + target.Seconds();
       last + base.Seconds() < bucketEnd <= now
  }

  // f is the stream g with or without its last bucket.
  ghost predicate MaybeDropped(f: seq<Bar>, g: seq<Bar>) {
    f == g || (g != [] && f == g[..|g| - 1])
  }

  ghost predicate SplitAt(v: seq<Bar>, w: seq<Bar>, base: Timeframe, now: int) {
    && v != [] && w != [] && Series(v + w)
    && v[|v| - 1].ts + base.Seconds() <= now < w[0].ts + base.Seconds()
  }

  // The visible bars' last bucket is over: the view of the full stream is exactly their stream.
  lemma ViewWhenOver(v: seq<Bar>, w: seq<Bar>, base: Timeframe, target: Timeframe, now: int, f: seq<Bar>)
    requires SplitAt(v, w, base, now) && NestedBars(v + w, base, target)
    requires MaybeDropped(f, Stream(v + w, target))
    requires BucketStart(v[|v| - 1].ts, target) + target.Seconds() <= now
    ensures Visible(f, target, now) == Stream(v, target) != []
  {
    hide BucketStart, Timeframe.Seconds, Stream, Series, BucketSpaced, Visible;
    var s, x, g := v + w, Stream(v, target), Stream(v + w, target);
    SeriesParts(v, w);
    StreamSpaced(v, target);
    StreamSpaced(s, target);
    SpacedPrefix(g, target, f);
    assert w[0] in s;
    assert BucketStart(w[0].ts, target) + target.Seconds() > now;
    StreamCloses(v, w, target);
    var n := |x|;
    assert g[n - 1] == g[..n][n - 1];
    assert f[..n] == g[..n];
    CutAt(f, target, now, n);
  }

  // It is not over: the view stops one bucket earlier.
  lemma ViewWhenForming(v: seq<Bar>, w: seq<Bar>, base: Timeframe, target: Timeframe, now: int, f: seq<Bar>)
    requires SplitAt(v, w, base, now)
    requires MaybeDropped(f, Stream(v + w, target))
    requires BucketStart(v[|v| - 1].ts, target) + target.Seconds() > now
    ensures var x := Stream(v, target); x != [] && Visible(f, target, now) == x[..|x| - 1]
  {
    hide BucketStart, Timeframe.Seconds, Stream, Series, BucketSpaced, Visible;
    var s, x, g := v + w, Stream(v, target), Stream(v + w, target);
    SeriesParts(v, w);
    StreamSpaced(v, target);
    StreamSpaced(s, target);
    SpacedPrefix(g, target, f);
    StreamExtendsPrefix(v, w, target);
    StreamBehind(v, base, target, now);
    var n := |x| - 1;
    assert f[..n] == g[..n] == x[..n];
    assert n > 0 ==> f[n - 1] == x[n - 1];
    CutAt(f, target, now, n);
  }

  lemma SeriesParts(v: seq<Bar>, w: seq<Bar>)
    requires Series(v + w)
    ensures Series(v) && Series(w)
  {
    assert forall i :: 0 <= i < |w| ==> (v + w)[|v| + i] == w[i];
    assert forall i :: 0 <= i < |v| ==> (v + w)[i] == v[i];
  }

  lemma SpacedIsSeries(out: seq<Bar>, target: Timeframe)
    requires BucketSpaced(out, target)
    ensures Series(out)
  {
  }

  lemma SpacedPrefix(g: seq<Bar>, target: Timeframe, f: seq<Bar>)
    requires BucketSpaced(g, target) && f <= g
    ensures BucketSpaced(f, target) && Series(f)
  {
  }

  // All buckets before the last are over when the last bar has closed.
  lemma StreamBehind(v: seq<Bar>, base: Timeframe, target: Timeframe, now: int)
    requires Series(v) && v != [] && v[|v| - 1].ts + base.Seconds() <= now
    ensures var x := Stream(v, target); x != [] && forall i :: 0 <= i < |x| - 1 ==> x[i].ts + target.Seconds() <= now
  {
    hide BucketStart, Timeframe.Seconds, Stream;
    StreamSpaced(v, target);
    BucketBounds(v[|v| - 1].ts, target);
  }

  // A spaced series whose first n buckets are over and whose next is not is cut at n.
  lemma CutAt(f: seq<Bar>, target: Timeframe, now: int, n: nat)
    requires BucketSpaced(f, target) && n <= |f|
    requires n > 0 ==> f[n - 1].ts + target.Seconds() <= now
    requires n < |f| ==> f[n].ts + target.Seconds() > now
    ensures Visible(f, target, now) == f[..n]
  {
    SpacedIsSeries(f, target);
    var cutoff := now - target.Seconds();
    assert forall i :: 0 <= i < n ==> f[i].ts <= f[n - 1].ts;
    assert forall i :: n <= i < |f| ==> f[n].ts <= f[i].ts;
    CountUnique(f, cutoff, n);
  }

  // With every base bar visible, the whole resampled history is.
  lemma ViewOfAll(s: seq<Bar>, base: Timeframe, target: Timeframe, now: int)
    requires Series(s) && s != [] && s[|s| - 1].ts + base.Seconds() <= now
    ensures var f := DropPartial(Stream(s, target), s, base, target); Visible(f, target, now) == f
  {
    hide BucketStart, Timeframe.Seconds, Stream, Series, BucketSpaced, Visible;
    var g := Stream(s, target);
    var f := DropPartial(g, s, base, target);
    StreamSpaced(s, target);
    StreamBehind(s, base, target, now);
    SpacedPrefix(g, target, f);
    CutAt(f, target, now, |f|);
  }

  // With no base bar visible, no bucket is.
  lemma ViewOfNone(s: seq<Bar>, base: Timeframe, target: Timeframe, now: int, f: seq<Bar>)
    requires Series(s) && s != [] && NestedBars(s, base, target) && s[0].ts + base.Seconds() > now
    requires MaybeDropped(f, Stream(s, target))
    ensures Visible(f, target, now) == []
  {
    hide BucketStart, Timeframe.Seconds, Stream, Series, BucketSpaced, Visible;
    var g := Stream(s, target);
    StreamOfOne(s[0], target);
    assert s == [s[0]] + s[1..];
    StreamExtendsPrefix([s[0]], s[1..], target);
    StreamSpaced(s, target);
    SpacedPrefix(g, target, f);
    assert f != [] ==> f[0].ts == BucketStart(s[0].ts, target);
    CutAt(f, target, now, 0);
  }

  lemma CutSplits(s: seq<Bar>, base: Timeframe, now: int)
    requires Series(s)
    ensures var n := CountUpTo(s, now - base.Seconds());
            && (n > 0 ==> s[n - 1].ts + base.Seconds() <= now)
            && (n < |s| ==> s[n].ts + base.Seconds() > now)
            && s == s[..n] + s[n..]
  {
    CountMeaning(s, now - base.Seconds());
  }

  lemma SplitCommutes(v: seq<Bar>, w: seq<Bar>, base: Timeframe, target: Timeframe, now: int)
    requires SplitAt(v, w, base, now) && NestedBars(v + w, base, target)
    ensures var f := DropPartial(Stream(v + w, target), v + w, base, target);
            var a, b := DropPartial(Stream(v, target), v, base, target), Visible(f, target, now);
            a <= b && |b| - |a| == if GapAtBucketEnd(v, base, target, now) then 1 else 0
  {
    hide BucketStart, Timeframe.Seconds, Stream, Series, BucketSpaced, Visible, NestedBars;
    SeriesParts(v, w);
    StreamSpaced(v, target);
    var f := DropPartial(Stream(v + w, target), v + w, base, target);
    if BucketStart(v[|v| - 1].ts, target) + target.Seconds() <= now {
      ViewWhenOver(v, w, base, target, now, f);
    } else {
      ViewWhenForming(v, w, base, target, now, f);
    }
  }

  /** Resampling commutes with the point-in-time cut.  For base bars nested in the target's
      buckets, resampling what is visible at `now` gives a prefix of what is visible at `now`
      in the resampled full history; it is shorter, by exactly one bar, only when more history
      follows and the last visible bar leaves a gap before the end of a bucket that is over. */
  lemma ResamplingCommutesWithCut(s: seq<Bar>, base: Timeframe, target: Timeframe, now: int)
    requires Series(s) && base.Rank() < target.Rank() && NestedBars(s, base, target)
    ensures var v := Visible(s, base, now);
            var resampledView := ResampleBars(v, base, target, true).value;
            var viewOfResampled := Visible(ResampleBars(s, base, target, true).value, target, now);
            && resampledView <= viewOfResampled
            && |viewOfResampled| - |resampledView| == if v != s && GapAtBucketEnd(v, base, target, now) then 1 else 0
  {
    hide BucketStart, Timeframe.Seconds, Stream, Series, BucketSpaced, Segments, CountUpTo, NestedBars;
    var n := CountUpTo(s, now - base.Seconds());
    var v, w := s[..n], s[n..];
    CutSplits(s, base, now);
    SegmentsAreStream(s, target);
    SegmentsAreStream(v, target);
    if s == [] {
      NothingVisible(target, now);
    } else if w == [] {
      assert v == s;
      ViewOfAll(s, base, target, now);
    } else if v == [] {
      ViewOfNone(s, base, target, now, ResampleBars(s, base, target, true).value);
    } else {
      SplitCommutes(v, w, base, target, now);
    }
  }

  lemma NothingVisible(target: Timeframe, now: int)
    ensures Visible([], target, now) == []
  {
  }

  /** Every visible higher-timeframe bar aggregates only base bars that have closed by `now`. */
  lemma VisibleBucketsAreClosed(s: seq<Bar>, base: Timeframe, target: Timeframe, now: int, bucket: Bar, b: Bar)
    requires Series(s) && base.Rank() < target.Rank() && NestedBars(s, base, target)
    requires bucket in Visible(ResampleBars(s, base, target, true).value, target, now)
    requires b in s && BucketStart(b.ts, target) == bucket.ts
    ensures b in Visible(s, base, now)
  {
    hide BucketStart, Timeframe.Seconds, Stream, Series, BucketSpaced, Segments, CountUpTo;
    var f := ResampleBars(s, base, target, true).value;
    SegmentsAreStream(s, target);
    StreamSpaced(s, target);
    SpacedPrefix(Stream(s, target), target, f);
    VisibleMeaning(f, target, now);
    VisibleMeaning(s, base, now);
  }
}
