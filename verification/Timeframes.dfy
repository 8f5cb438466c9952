/** Timeframes and calendar buckets (src/xauusd/domain/enums.py and the first half of
    src/xauusd/data/resample.py).  The monthly timeframe is not part of this model. */
module Timeframes {

  datatype Timeframe = M1 | M5 | M15 | M30 | H1 | H4 | D1 | W1 {
    function Seconds(): (s: int)
      ensures s > 0
    {
      match this
      case M1 => 60
      case M5 => 300
      case M15 => 900
      case M30 => 1800
      case H1 => 3600
      case H4 => 14400
      case D1 => 86400
      case W1 => 604800
    }

    function Rank(): nat {
      match this
      case M1 => 0
      case M5 => 1
      case M15 => 2
      case M30 => 3
      case H1 => 4
      case H4 => 5
      case D1 => 6
      case W1 => 7
    }
  }

  const DAY := 86400
  const WEEK := 604800
  const ROLL := 79200 // 22:00 UTC

  // UTC calendar arithmetic on epoch seconds; day 0 was a Thursday and Monday is 0.
  function DayOf(ts: int): int {
    ts / DAY
  }

  function Weekday(ts: int): int {
    (DayOf(ts) + 3) % 7
  }

  /** Start of the bucket containing `ts`, by the calendar steps the source takes: daily
      buckets roll at 22:00 UTC and weekly ones on Sunday at 22:00 UTC. */
  function BucketStart(ts: int, tf: Timeframe): int {
    match tf
    case D1 =>
      var anchor := DayOf(ts) * DAY + ROLL;
      if ts < anchor then anchor - DAY else anchor
    case W1 =>
      var daysBack := (Weekday(ts) - 6) % 7;
      var anchor := (DayOf(ts) - daysBack) * DAY + ROLL;
      if anchor > ts then anchor - WEEK else anchor
    case _ => ts / tf.Seconds() * tf.Seconds()
  }

  // Where the bucket grid of a timeframe is anchored.
  function Anchor(tf: Timeframe): int {
    match tf
    case D1 => ROLL
    case W1 => 3 * DAY + ROLL
    case _ => 0
  }

  function FloorTo(ts: int, anchor: int, width: int): int
    requires width > 0
  {
    (ts - anchor) / width * width + anchor
  }

  // The only multiple of the width in a window of that width.
  lemma FloorUnique(ts: int, anchor: int, width: int, q: int)
    requires width > 0 && anchor + q * width <= ts < anchor + q * width + width
    ensures FloorTo(ts, anchor, width) == anchor + q * width
  {
    var p := (ts - anchor) / width;
    FloorBounds(ts, anchor, width);
    SameMultiple(p, q, width, ts - anchor);
  }

  lemma SameMultiple(p: int, q: int, width: int, x: int)
    requires width > 0
    requires p * width <= x < p * width + width && q * width <= x < q * width + width
    ensures p == q
  {
    if p < q {
      MultipleGap(p, q, width);
    } else if p > q {
      MultipleGap(q, p, width);
    }
  }

  lemma MultipleGap(p: int, q: int, width: int)
    requires width > 0 && p < q
    ensures p * width + width <= q * width
  {
    assert (q - p - 1) * width >= 0;
    assert (q - p - 1) * width == q * width - p * width - width;
  }

  lemma FloorBounds(ts: int, anchor: int, width: int)
    requires width > 0
    ensures FloorTo(ts, anchor, width) <= ts < FloorTo(ts, anchor, width) + width
  {
  }

  /** The calendar branches equal closed-form floor arithmetic. */
  lemma BucketClosedForm(ts: int, tf: Timeframe)
    ensures BucketStart(ts, tf) == FloorTo(ts, Anchor(tf), tf.Seconds())
  {
    match tf
    case D1 =>
      var day := DayOf(ts);
      FloorUnique(ts, ROLL, DAY, if ts < day * DAY + ROLL then day - 1 else day);
    case W1 =>
      var day, back := DayOf(ts), (Weekday(ts) - 6) % 7;
      assert (day - back - 3) % 7 == 0;
      var week := (day - back - 3) / 7;
      FloorUnique(ts, 3 * DAY + ROLL, WEEK, if (day - back) * DAY + ROLL > ts then week - 1 else week);
    case _ =>
  }

  /** A bucket contains its instants and fixes its own start. */
  lemma BucketBounds(ts: int, tf: Timeframe)
    ensures BucketStart(ts, tf) <= ts < BucketStart(ts, tf) + tf.Seconds()
    ensures BucketStart(BucketStart(ts, tf), tf) == BucketStart(ts, tf)
  {
    hide BucketStart;
    var b, a, w := BucketStart(ts, tf), Anchor(tf), tf.Seconds();
    BucketClosedForm(ts, tf);
    FloorBounds(ts, a, w);
    BucketClosedForm(b, tf);
    FloorUnique(b, a, w, (ts - a) / w);
  }

  /** Buckets are monotone, and two different ones are a full width apart. */
  lemma BucketMonotone(x: int, y: int, tf: Timeframe)
    requires x <= y
    ensures BucketStart(x, tf) <= BucketStart(y, tf)
    ensures BucketStart(x, tf) == BucketStart(y, tf) || BucketStart(x, tf) + tf.Seconds() <= BucketStart(y, tf)
  {
    hide BucketStart;
    var w, a := tf.Seconds(), Anchor(tf);
    BucketClosedForm(x, tf);
    BucketClosedForm(y, tf);
    FloorBounds(x, a, w);
    FloorBounds(y, a, w);
    var p, q := (x - a) / w, (y - a) / w;
    if p < q {
      MultipleGap(p, q, w);
    } else if p > q {
      MultipleGap(q, p, w);
    }
  }

  // ---------------------------------------------------------------- nesting

  ghost predicate NestsAt(mid: Timeframe, target: Timeframe, ts: int) {
    BucketStart(BucketStart(ts, mid), target) == BucketStart(ts, target)
  }

  ghost predicate Nests(mid: Timeframe, target: Timeframe) {
    forall ts :: NestsAt(mid, target, ts)
  }

  // How many fine buckets make a coarse one, and how far the two grids are shifted.
  ghost predicate GridRefines(mid: Timeframe, target: Timeframe, ratio: int, shift: int) {
    target.Seconds() == ratio * mid.Seconds() && Anchor(target) - Anchor(mid) == shift * mid.Seconds()
  }

  // The same fact about two floor grids, a fine one of width w and a coarse one ratio times as wide.
  lemma FloorsNest(ts: int, a: int, w: int, ratio: int, shift: int)
    requires w > 0 && ratio * w > 0
    ensures var m, t := FloorTo(ts, a, w), FloorTo(ts, a + shift * w, ratio * w);
            t <= m && m + w <= t + ratio * w
  {
    var p, q := (ts - a) / w, (ts - (a + shift * w)) / (ratio * w);
    var lo := q * ratio + shift;
    FloorBounds(ts, a, w);
    FloorBounds(ts, a + shift * w, ratio * w);
    MulRearrange(q, ratio, w);
    assert lo * w == q * ratio * w + shift * w;
    assert (lo + ratio) * w == lo * w + ratio * w;
    if p < lo {
      MultipleGap(p, lo, w);
    } else if lo < p {
      MultipleGap(lo, p, w);
    }
    if p < lo + ratio {
      MultipleGap(p, lo + ratio, w);
    } else if lo + ratio < p {
      MultipleGap(lo + ratio, p, w);
    }
  }

  lemma GridNests(ts: int, mid: Timeframe, target: Timeframe, ratio: int, shift: int)
    requires GridRefines(mid, target, ratio, shift)
    ensures BucketStart(BucketStart(ts, mid), target) == BucketStart(ts, target)
    ensures BucketStart(ts, mid) + mid.Seconds() <= BucketStart(ts, target) + target.Seconds()
  {
    hide BucketStart, Timeframe.Seconds, Anchor;
    var m := BucketStart(ts, mid);
    BucketClosedForm(ts, mid);
    BucketClosedForm(ts, target);
    FloorsNest(ts, Anchor(mid), mid.Seconds(), ratio, shift);
    BucketClosedForm(m, target);
    FloorUnique(m, Anchor(target), target.Seconds(), (ts - Anchor(target)) / target.Seconds());
  }

  lemma RatioAndShift(mid: Timeframe, target: Timeframe)
    requires mid.Rank() < target.Rank() && !(mid == H4 && target in {D1, W1})
    ensures GridRefines(mid, target, target.Seconds() / mid.Seconds(), (Anchor(target) - Anchor(mid)) / mid.Seconds())
  {
    match mid
    case M1 =>
    case M5 =>
    case M15 =>
    case M30 =>
    case H1 =>
    case H4 =>
    case D1 =>
    case W1 =>
  }

  lemma MulRearrange(q: int, ratio: int, w: int)
    ensures q * (ratio * w) == q * ratio * w
  {
  }

  /** Which pairs nest: every finer timeframe nests in every coarser one, except that
      four-hour buckets straddle the 22:00 roll of the daily and weekly ones. */
  lemma NestingTable(mid: Timeframe, target: Timeframe)
    requires mid.Rank() < target.Rank()
    ensures Nests(mid, target) <==> !(mid == H4 && target in {D1, W1})
  {
    if mid == H4 && target in {D1, W1} {
      var ts := 3 * DAY + ROLL + 1800; // Sunday, 22:30
      assert !NestsAt(H4, target, ts);
    } else {
      hide BucketStart, Timeframe.Seconds, Anchor;
      RatioAndShift(mid, target);
      var ratio, shift := target.Seconds() / mid.Seconds(), (Anchor(target) - Anchor(mid)) / mid.Seconds();
      forall ts
        ensures NestsAt(mid, target, ts)
      {
        GridNests(ts, mid, target, ratio, shift);
      }
    }
  }
}
