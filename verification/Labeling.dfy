/** Triple-barrier labelling (src/xauusd/ml/labeling.py), and its agreement with a position
    stepped bar by bar through the simulated broker. */
module Labeling {
  import opened Domain
  import opened Sequences
  import opened Timeframes
  import opened SimBroker

  datatype Barrier = TargetHit | StopHit | TimedOut

  datatype Label = Label(outcome: int, r: real, bars: int, resolvedAt: int, hit: Barrier, maeR: real, mfeR: real)

  // One candidate: its bars, the finer bars, and the trade it proposes.
  datatype Setup = Setup(
    series: seq<Bar>, tf: Timeframe, m1: seq<Bar>, entry: real, stop: real, direction: Direction, targetR: real)
  {
    function Risk(): real {
      Abs(entry - stop)
    }

    function Target(): real {
      entry + direction.Sign() * targetR * Risk()
    }
  }

  predicate Reaches(level: real, b: Bar) {
    b.low <= level <= b.high
  }

  // The finer bars opening inside the bar at `ts`; the labeller and the backtester cut alike.
  function M1For(m1: seq<Bar>, ts: int, tf: Timeframe): seq<Bar> {
    Filter(m1, (b: Bar) => ts <= b.ts < ts + tf.Seconds())
  }

  function ResolveM1(stop: real, target: real, m1: seq<Bar>): Barrier {
    if m1 == [] || Reaches(stop, m1[0]) then StopHit
    else if Reaches(target, m1[0]) then TargetHit
    else ResolveM1(stop, target, m1[1..])
  }

  // Which barrier, if any, bar i touches first.
  function HitAt(c: Setup, i: nat): Option<Barrier>
    requires i < |c.series|
  {
    var b := c.series[i];
    if Reaches(c.stop, b) && Reaches(c.Target(), b)
    then Some(ResolveM1(c.stop, c.Target(), M1For(c.m1, b.ts, c.tf)))
    else if Reaches(c.stop, b) then Some(StopHit)
    else if Reaches(c.Target(), b) then Some(TargetHit)
    else None
  }

  function Adverse(entry: real, d: Direction, b: Bar): real {
    (entry - if d == Long then b.low else b.high) * d.Sign()
  }

  function Favour(entry: real, d: Direction, b: Bar): real {
    ((if d == Long then b.high else b.low) - entry) * d.Sign()
  }

  // Worst and best excursion in R over bars [lo, hi), starting at zero.
  function MaeR(c: Setup, lo: nat, hi: nat): real
    requires lo <= hi <= |c.series| && c.Risk() > 0.0
  {
    if hi == lo then 0.0 else Max(MaeR(c, lo, hi - 1), Adverse(c.entry, c.direction, c.series[hi - 1]) / c.Risk())
  }

  function MfeR(c: Setup, lo: nat, hi: nat): real
    requires lo <= hi <= |c.series| && c.Risk() > 0.0
  {
    if hi == lo then 0.0 else Max(MfeR(c, lo, hi - 1), Favour(c.entry, c.direction, c.series[hi - 1]) / c.Risk())
  }

  // First bar in [lo, hi) that touches a barrier, or `hi`.
  function FirstHit(c: Setup, lo: nat, hi: nat): (h: nat)
    requires lo <= hi <= |c.series|
    ensures lo <= h <= hi
    ensures h < hi ==> HitAt(c, h).Some?
    ensures (forall i :: lo <= i < h ==> HitAt(c, i) == None)
    decreases hi - lo
  {
    if lo == hi then hi else if HitAt(c, lo).Some? then lo else FirstHit(c, lo + 1, hi)
  }

  // One past the last bar of the horizon that exists.
  function HorizonEnd(c: Setup, entryIndex: nat, maxBars: int): int {
    var end := entryIndex + 1 + maxBars;
    if end < |c.series| then end else |c.series|
  }

  /** The label, stated by the first touching bar rather than by a loop. */
  function LabelOf(c: Setup, entryIndex: nat, maxBars: int): Option<Label> {
    var first, end := entryIndex + 1, HorizonEnd(c, entryIndex, maxBars);
    if c.Risk() <= 0.0 || end <= first then None
    else
      var h := FirstHit(c, first, end);
      if h < end then
        var won := HitAt(c, h) == Some(TargetHit);
        Some(Label(if won then 1 else 0, if won then c.targetR else -1.0, h - entryIndex, c.series[h].ts,
                   if won then TargetHit else StopHit, MaeR(c, first, h + 1), MfeR(c, first, h + 1)))
      else if end < first + maxBars then None
      else
        var last := c.series[end - 1];
        var r := (last.close - c.entry) * c.direction.Sign() / c.Risk();
        Some(Label(if r > 0.0 then 1 else 0, r, end - 1 - entryIndex, last.ts, TimedOut,
                   MaeR(c, first, end), MfeR(c, first, end)))
  }

  // ---------------------------------------------------------------- the label in prices

  // Bar i touches the stop or the target.
  predicate Touched(c: Setup, i: nat)
    requires i < |c.series|
  {
    var b := c.series[i];
    b.low <= c.stop <= b.high || b.low <= c.Target() <= b.high
  }

  // A finer bar inside the bar opening at `ts` that touches either level.
  predicate Decides(c: Setup, ts: int, b: Bar) {
    && ts <= b.ts < ts + c.tf.Seconds()
    && (b.low <= c.stop <= b.high || b.low <= c.Target() <= b.high)
  }

  /** The target comes first: bar i touches it, and either not the stop, or the first finer bar
      inside it to touch either touches the target alone. */
  ghost predicate TargetFirstAt(c: Setup, i: nat)
    requires i < |c.series|
  {
    var b := c.series[i];
    && b.low <= c.Target() <= b.high
    && (b.low <= c.stop <= b.high ==>
          exists j :: 0 <= j < |c.m1| && Decides(c, b.ts, c.m1[j])
                      && !(c.m1[j].low <= c.stop <= c.m1[j].high)
                      && forall k :: 0 <= k < j ==> !Decides(c, b.ts, c.m1[k]))
  }

  lemma {:induction false} ResolveMeans(stop: real, target: real, m1: seq<Bar>)
    ensures ResolveM1(stop, target, m1) == TargetHit <==> FirstReaches(stop, target, m1)
    ensures ResolveM1(stop, target, m1) in {TargetHit, StopHit}
  {
    if m1 != [] {
      ResolveMeans(stop, target, m1[1..]);
      if j :| WinsAt(stop, target, m1[1..], j) {
        assert !Reaches(stop, m1[0]) && !Reaches(target, m1[0]) ==> WinsAt(stop, target, m1, j + 1);
      }
      if j :| WinsAt(stop, target, m1, j) {
        assert j > 0 ==> WinsAt(stop, target, m1[1..], j - 1);
      }
      assert Reaches(target, m1[0]) && !Reaches(stop, m1[0]) ==> WinsAt(stop, target, m1, 0);
    }
  }

  // Entry j reaches the target alone, and nothing before it reaches either.
  ghost predicate WinsAt(stop: real, target: real, m1: seq<Bar>, j: int) {
    && 0 <= j < |m1| && Reaches(target, m1[j]) && !Reaches(stop, m1[j])
    && forall k :: 0 <= k < j ==> !Reaches(stop, m1[k]) && !Reaches(target, m1[k])
  }

  ghost predicate FirstReaches(stop: real, target: real, m1: seq<Bar>) {
    exists j :: WinsAt(stop, target, m1, j)
  }

  // The same, of the finer bars before the cut: entry j of `m1` decides for the target.
  ghost predicate DecidedAt(c: Setup, ts: int, m1: seq<Bar>, j: int) {
    && 0 <= j < |m1| && Decides(c, ts, m1[j]) && !(m1[j].low <= c.stop <= m1[j].high)
    && forall k :: 0 <= k < j ==> !Decides(c, ts, m1[k])
  }

  ghost predicate DecidedFirst(c: Setup, ts: int, m1: seq<Bar>) {
    exists j :: DecidedAt(c, ts, m1, j)
  }

  ghost predicate AnyDecides(c: Setup, ts: int, m1: seq<Bar>) {
    exists k :: 0 <= k < |m1| && Decides(c, ts, m1[k])
  }

  lemma {:induction false} CutDecides(c: Setup, ts: int, m1: seq<Bar>)
    ensures FirstReaches(c.stop, c.Target(), M1For(m1, ts, c.tf)) <==> DecidedFirst(c, ts, m1)
    ensures AnyReaches(c.stop, c.Target(), M1For(m1, ts, c.tf)) <==> AnyDecides(c, ts, m1)
  {
    if m1 != [] {
      hide Setup.Target, FirstReaches, AnyReaches, DecidedFirst, AnyDecides;
      var front, last := m1[..|m1| - 1], m1[|m1| - 1];
      assert m1 == front + [last];
      CutDecides(c, ts, front);
      DecidedPush(c, ts, front, last);
      if ts <= last.ts < ts + c.tf.Seconds() {
        assert M1For(m1, ts, c.tf) == M1For(front, ts, c.tf) + [last];
        CutPush(c, ts, front, last);
      } else {
        assert M1For(m1, ts, c.tf) == M1For(front, ts, c.tf);
      }
    }
  }

  ghost predicate AnyReaches(stop: real, target: real, m1: seq<Bar>) {
    exists k :: 0 <= k < |m1| && (Reaches(stop, m1[k]) || Reaches(target, m1[k]))
  }

  lemma CutPush(c: Setup, ts: int, front: seq<Bar>, last: Bar)
    ensures var inside := M1For(front, ts, c.tf);
            && (FirstReaches(c.stop, c.Target(), inside + [last]) <==>
                  || FirstReaches(c.stop, c.Target(), inside)
                  || (!AnyReaches(c.stop, c.Target(), inside) && Reaches(c.Target(), last) && !Reaches(c.stop, last)))
            && (AnyReaches(c.stop, c.Target(), inside + [last]) <==>
                  AnyReaches(c.stop, c.Target(), inside) || Reaches(c.stop, last) || Reaches(c.Target(), last))
  {
    hide Setup.Target, M1For, Reaches;
    var inside, stop, target := M1For(front, ts, c.tf), c.stop, c.Target();
    var all := inside + [last];
    assert all[|inside|] == last && forall k :: 0 <= k < |inside| ==> all[k] == inside[k];
    if j :| WinsAt(stop, target, inside, j) {
      assert WinsAt(stop, target, all, j);
    }
    if j :| WinsAt(stop, target, all, j) {
      assert j < |inside| ==> WinsAt(stop, target, inside, j);
    }
    if !AnyReaches(stop, target, inside) && Reaches(target, last) && !Reaches(stop, last) {
      assert WinsAt(stop, target, all, |inside|);
    }
  }

  lemma DecidedPush(c: Setup, ts: int, front: seq<Bar>, last: Bar)
    ensures DecidedFirst(c, ts, front + [last]) <==>
              || DecidedFirst(c, ts, front)
              || (!AnyDecides(c, ts, front) && Decides(c, ts, last) && !(last.low <= c.stop <= last.high))
    ensures AnyDecides(c, ts, front + [last]) <==> AnyDecides(c, ts, front) || Decides(c, ts, last)
  {
    hide Decides;
    var all := front + [last];
    assert all[|front|] == last && forall k :: 0 <= k < |front| ==> all[k] == front[k];
    if j :| DecidedAt(c, ts, front, j) {
      assert DecidedAt(c, ts, all, j);
    }
    if j :| DecidedAt(c, ts, all, j) {
      assert j < |front| ==> DecidedAt(c, ts, front, j);
    }
    if (forall k :: 0 <= k < |front| ==> !Decides(c, ts, front[k])) && Decides(c, ts, last)
       && !(last.low <= c.stop <= last.high) {
      assert DecidedAt(c, ts, all, |front|);
    }
  }

  lemma HitMeans(c: Setup, i: nat)
    requires i < |c.series|
    ensures HitAt(c, i).Some? <==> Touched(c, i)
    ensures Touched(c, i) ==> HitAt(c, i) == Some(if TargetFirstAt(c, i) then TargetHit else StopHit)
  {
    hide Setup.Target, M1For, ResolveM1;
    var ts := c.series[i].ts;
    ResolveMeans(c.stop, c.Target(), M1For(c.m1, ts, c.tf));
    CutDecides(c, ts, c.m1);
    if j :| DecidedAt(c, ts, c.m1, j) {
      assert 0 <= j < |c.m1| && Decides(c, ts, c.m1[j]);
    }
    assert TargetFirstAt(c, i) && Reaches(c.stop, c.series[i]) ==> exists j :: DecidedAt(c, ts, c.m1, j) by {
      if TargetFirstAt(c, i) && Reaches(c.stop, c.series[i]) {
        var j :| 0 <= j < |c.m1| && Decides(c, ts, c.m1[j]) && !(c.m1[j].low <= c.stop <= c.m1[j].high)
                 && forall k :: 0 <= k < j ==> !Decides(c, ts, c.m1[k]);
        assert DecidedAt(c, ts, c.m1, j);
      }
    }
  }

  /** The label in terms of prices.  There is one exactly when the stop is away from the entry and
      some bar of the horizon touches a level or the whole horizon exists.  It is decided by the
      first bar that touches a level: a win of the target's R when the target comes first there,
      and otherwise a loss of one R.  If none does it is timed out at the horizon's last close,
      whose directed distance from the entry is its R times the risk, and a win exactly if positive. */
  lemma LabelMeans(c: Setup, entryIndex: nat, maxBars: int)
    ensures var made, first := LabelOf(c, entryIndex, maxBars), entryIndex + 1;
            var end := if first + maxBars < |c.series| then first + maxBars else |c.series|;
            && (made.Some? <==>
                  && c.entry != c.stop && first < end
                  && ((exists i :: first <= i < end && Touched(c, i)) || first + maxBars <= |c.series|))
            && (made.Some? ==>
                  var l := made.value;
                  if exists i :: first <= i < end && Touched(c, i) then
                    var h := entryIndex + l.bars;
                    && first <= h < end && Touched(c, h) && (forall i :: first <= i < h ==> !Touched(c, i))
                    && l.resolvedAt == c.series[h].ts
                    && (if TargetFirstAt(c, h) then l.hit == TargetHit && l.outcome == 1 && l.r == c.targetR
                        else l.hit == StopHit && l.outcome == 0 && l.r == -1.0)
                  else
                    var last := c.series[first + maxBars - 1];
                    var moved := if c.direction == Long then last.close - c.entry else c.entry - last.close;
                    && l.hit == TimedOut && l.bars == maxBars && l.resolvedAt == last.ts
                    && l.r * Abs(c.entry - c.stop) == moved && l.outcome == if moved > 0.0 then 1 else 0)
  {
    hide Setup.Target, HitAt, Touched, TargetFirstAt, MaeR, MfeR;
    var first, end := entryIndex + 1, HorizonEnd(c, entryIndex, maxBars);
    forall i | first <= i < end
      ensures HitAt(c, i).Some? <==> Touched(c, i)
      ensures Touched(c, i) ==> HitAt(c, i) == Some(if TargetFirstAt(c, i) then TargetHit else StopHit)
    {
      HitMeans(c, i);
    }
    if first < end && c.Risk() > 0.0 {
      var moved := (c.series[end - 1].close - c.entry) * c.direction.Sign();
      QuotientTimes(moved, c.Risk());
      var r := moved / c.Risk();
      assert r > 0.0 <==> r * c.Risk() > 0.0;
    }
  }

  method ResolveLoop(c: Setup, i: nat) returns (hit: Barrier)
    requires i < |c.series|
    ensures hit == ResolveM1(c.stop, c.Target(), M1For(c.m1, c.series[i].ts, c.tf))
  {
    var inside := M1For(c.m1, c.series[i].ts, c.tf);
    for j := 0 to |inside|
      invariant ResolveM1(c.stop, c.Target(), inside) == ResolveM1(c.stop, c.Target(), inside[j..])
    {
      var stopHit, targetHit := Reaches(c.stop, inside[j]), Reaches(c.Target(), inside[j]);
      if stopHit {
        return StopHit;
      }
      if targetHit {
        return TargetHit;
      }
    }
    hit := StopHit;
  }

  method TripleBarrier(c: Setup, entryIndex: nat, maxBars: int) returns (result: Option<Label>)
    ensures result == LabelOf(c, entryIndex, maxBars)
  {
    var risk := c.Risk();
    if risk <= 0.0 {
      return None;
    }
    var end := HorizonEnd(c, entryIndex, maxBars);
    if entryIndex + 1 >= |c.series| {
      return None;
    }
    var target := c.Target();
    var mae, mfe := 0.0, 0.0;
    var i := entryIndex + 1;
    while i < end
      invariant entryIndex + 1 <= i <= |c.series| && (entryIndex + 1 <= end ==> i <= end)
      invariant mae == MaeR(c, entryIndex + 1, i) && mfe == MfeR(c, entryIndex + 1, i)
      invariant entryIndex + 1 <= end ==> FirstHit(c, entryIndex + 1, end) == FirstHit(c, i, end)
    {
      var b := c.series[i];
      mae := Max(mae, Adverse(c.entry, c.direction, b) / risk);
      mfe := Max(mfe, Favour(c.entry, c.direction, b) / risk);
      var hitStop, hitTarget := Reaches(c.stop, b), Reaches(target, b);
      if hitStop && hitTarget {
        var resolved := ResolveLoop(c, i);
        if resolved == TargetHit {
          return Some(Label(1, c.targetR, i - entryIndex, b.ts, TargetHit, mae, mfe));
        }
        return Some(Label(0, -1.0, i - entryIndex, b.ts, StopHit, mae, mfe));
      }
      if hitStop {
        return Some(Label(0, -1.0, i - entryIndex, b.ts, StopHit, mae, mfe));
      }
      if hitTarget {
        return Some(Label(1, c.targetR, i - entryIndex, b.ts, TargetHit, mae, mfe));
      }
      i := i + 1;
    }
    if end <= entryIndex + 1 || end < entryIndex + 1 + maxBars {
      return None;
    }
    var r := (c.series[end - 1].close - c.entry) * c.direction.Sign() / risk;
    result := Some(Label(if r > 0.0 then 1 else 0, r, end - 1 - entryIndex, c.series[end - 1].ts, TimedOut, mae, mfe));
  }
}
